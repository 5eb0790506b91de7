/**
 * IconHelper: resolves a file path to an icon image and memoises the result
 * in one process-wide dictionary whose keys compare ignoring case.  The
 * operating-system calls (File.Exists, Icon.ExtractAssociatedIcon,
 * AssocQueryString, SHGetFileInfo) are given as an `IconShell` value.
 */
module Icons {
  import opened Wrappers
  import opened Text

  /** An image source: the generic application icon, or one converted from an extracted icon. */
  datatype Image = DefaultIcon | Bitmap(id: nat)

  /**
   * The answers of the two AssocQueryString calls for the "http" protocol:
   * the status and buffer size of the size query, the status of the second
   * query and the text it wrote.
   */
  datatype AssocQuery = AssocQuery(sizeResult: nat, size: nat, pathResult: nat, path: string)

  /**
   * The operating system as seen by the icon helper.  `extractIcon` gives the
   * converted icon associated with a file, or None when extraction returns
   * null or throws.
   */
  datatype IconShell = IconShell(
    fileExists: string -> bool,
    extractIcon: string -> Option<nat>,
    httpHandler: AssocQuery)

  const BrowserCacheKey: string := "::DEFAULT_BROWSER_ICON::"
  const FolderCacheKey: string := "::FOLDER_ICON::"

  /** The dictionary key a string is stored under (keys compare ignoring case). */
  function Key(s: string): string
  {
    Fold(s)
  }

  /**
   * GetHttpHandlerPath: the default web browser's executable, or null when the
   * size query fails (status above S_FALSE = 1) or reports a zero size, or
   * when the second query does not return S_OK = 0.
   */
  function GetHttpHandlerPath(q: AssocQuery): (r: Option<string>)
    ensures r.Some? <==> q.sizeResult <= 1 && q.size != 0 && q.pathResult == 0
    ensures r.Some? ==> r.value == q.path
  {
    if q.sizeResult > 1 || q.size == 0 then None
    else if q.pathResult == 0 then Some(q.path)
    else None
  }

  /** The icon of the default browser, when every step of finding and extracting it succeeds. */
  function BrowserIcon(shell: IconShell): Option<nat>
  {
    match GetHttpHandlerPath(shell.httpHandler)
    case Some(p) => if p != "" && shell.fileExists(p) then shell.extractIcon(p) else None
    case None => None
  }

  predicate IsUrlShortcut(path: string)
  {
    EndsWithIgnoreCase(path, ".url")
  }

  /** The per-path lookup is reached: the path is not a .url file, or the browser icon is neither cached nor obtainable. */
  predicate FallsThroughToPath(cache: map<string, Image>, path: string, shell: IconShell)
  {
    !IsUrlShortcut(path) || (Key(BrowserCacheKey) !in cache && BrowserIcon(shell).None?)
  }

  class IconCache {
    var cache: map<string, Image>

    /** Keys are stored folded, and the default icon is never stored. */
    ghost predicate Valid()
      reads this
    {
      forall k :: k in cache ==> Key(k) == k && cache[k] != DefaultIcon
    }

    constructor ()
      ensures Valid() && cache == map[]
    {
      cache := map[];
    }

    /** GetIconImageSource. */
    method GetIconImageSource(path: string, shell: IconShell) returns (img: Image)
      requires Valid()
      modifies this
      ensures Valid()
      // no entry is ever removed or replaced
      ensures forall k :: k in old(cache) ==> k in cache && cache[k] == old(cache)[k]
      // a missing path gives the default icon and leaves the cache alone
      ensures path == "" || !shell.fileExists(path) ==> img == DefaultIcon && cache == old(cache)
      // .url files: the shared browser icon, from the cache or freshly extracted and stored
      ensures path != "" && shell.fileExists(path) && IsUrlShortcut(path) ==>
        (Key(BrowserCacheKey) in old(cache) ==>
           img == old(cache)[Key(BrowserCacheKey)] && cache == old(cache))
        && (Key(BrowserCacheKey) !in old(cache) && BrowserIcon(shell).Some? ==>
           img == Bitmap(BrowserIcon(shell).value) && cache == old(cache)[Key(BrowserCacheKey) := img])
      // every other file, and a .url file whose browser icon cannot be had: the per-path entry
      ensures path != "" && shell.fileExists(path) && FallsThroughToPath(old(cache), path, shell) ==>
        (Key(path) in old(cache) ==>
           img == old(cache)[Key(path)] && cache == old(cache))
        && (Key(path) !in old(cache) && shell.extractIcon(path).Some? ==>
           img == Bitmap(shell.extractIcon(path).value) && cache == old(cache)[Key(path) := img])
        && (Key(path) !in old(cache) && shell.extractIcon(path).None? ==>
           img == DefaultIcon && cache == old(cache))
    {
      if path == "" || !shell.fileExists(path) {
        return DefaultIcon;
      }
      if IsUrlShortcut(path) {
        var browserKey := Key(BrowserCacheKey);
        if browserKey in cache {
          return cache[browserKey];
        }
        var browserPath := GetHttpHandlerPath(shell.httpHandler);
        if browserPath.Some? && browserPath.value != "" && shell.fileExists(browserPath.value) {
          var ico := shell.extractIcon(browserPath.value);
          if ico.Some? {
            img := Bitmap(ico.value);
            FoldIdempotent(BrowserCacheKey);
            cache := cache[browserKey := img];
            return;
          }
        }
      }
      var key := Key(path);
      if key in cache {
        return cache[key];
      }
      var ico := shell.extractIcon(path);
      if ico.None? {
        return DefaultIcon;
      }
      img := Bitmap(ico.value);
      FoldIdempotent(path);
      cache := cache[key := img];
    }

    /** GetFolderIcon; `folderIcon` is the converted icon SHGetFileInfo yields, None when it fails or throws. */
    method GetFolderIcon(folderIcon: Option<nat>) returns (img: Image)
      requires Valid()
      modifies this
      ensures Valid()
      ensures Key(FolderCacheKey) in old(cache) ==> img == old(cache)[Key(FolderCacheKey)] && cache == old(cache)
      ensures Key(FolderCacheKey) !in old(cache) && folderIcon.Some? ==>
        img == Bitmap(folderIcon.value) && cache == old(cache)[Key(FolderCacheKey) := img]
      ensures Key(FolderCacheKey) !in old(cache) && folderIcon.None? ==> img == DefaultIcon && cache == old(cache)
    {
      var folderKey := Key(FolderCacheKey);
      if folderKey in cache {
        return cache[folderKey];
      }
      if folderIcon.Some? {
        img := Bitmap(folderIcon.value);
        FoldIdempotent(FolderCacheKey);
        cache := cache[folderKey := img];
        return;
      }
      return DefaultIcon;
    }
  }

  /**
   * Once the browser icon has been stored, two .url files, whatever their
   * letter case or location, get the same image.
   */
  method UrlShortcutsShareOneIcon(icons: IconCache, p: string, q: string, shell: IconShell)
      returns (a: Image, b: Image)
    requires icons.Valid() && Key(BrowserCacheKey) in icons.cache
    requires p != "" && shell.fileExists(p) && IsUrlShortcut(p)
    requires q != "" && shell.fileExists(q) && IsUrlShortcut(q)
    modifies icons
    ensures a == b == old(icons.cache)[Key(BrowserCacheKey)]
  {
    a := icons.GetIconImageSource(p, shell);
    b := icons.GetIconImageSource(q, shell);
  }
}
