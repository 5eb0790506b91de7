/**
 * The catalog entries of the launcher window and the pure rules around them:
 * how an entry is built from a file path, the visibility filter (free-text
 * search and folder type), the result count, the rename target and the
 * keyboard cycling of the folder-type selection and of the tabs.
 */
module Catalog {
  import opened Wrappers
  import opened Text
  import opened Paths
  import opened Extensions
  import opened Icons

  /** The folder-type selection: every folder, personal folders, or work folders. */
  datatype TipoCarpeta = Ambos | Personal | Laboral

  /** AppItem: one catalog entry; a new entry has the defaults "", "", "", no icon, not a folder, "File". */
  datatype AppItem = AppItem(
    name: string,
    fullPath: string,
    relativeDirectory: string,
    icon: Option<Image>,
    isEmptyFolder: bool,
    itemType: string)

  /** The group shown for files that sit directly in the base directory. */
  const RootGroup := "Raiz"
  const PersonalSentinel := ".personal"
  const MixedSentinel := ".mixta"

  predicate Distinct<T(==)>(s: seq<T>)
  {
    forall i, j :: 0 <= i < j < |s| ==> s[i] != s[j]
  }

  // ---------------------------------------------------------------- catalog build

  /** The launchable files among `files`, in enumeration order. */
  function LaunchableFiles(exts: set<string>, files: seq<string>): (r: seq<string>)
    ensures forall f :: f in r <==> f in files && IsLaunchable(exts, f)
    ensures |r| <= |files|
  {
    if files == [] then []
    else (if IsLaunchable(exts, files[0]) then [files[0]] else []) + LaunchableFiles(exts, files[1..])
  }

  /** A listing without repeated paths yields launchable files without repeats: one entry per file. */
  lemma {:induction false} LaunchableFilesDistinct(exts: set<string>, files: seq<string>)
    requires Distinct(files)
    ensures Distinct(LaunchableFiles(exts, files))
  {
    if files != [] {
      LaunchableFilesDistinct(exts, files[1..]);
      assert files[0] !in files[1..] by {
        forall k | 0 <= k < |files| - 1 ensures files[1..][k] != files[0] {
          assert files[1..][k] == files[k + 1];
        }
      }
    }
  }

  /** The group of a file: its directory relative to the base directory, or "Raiz" for the base directory itself. */
  function RelativeGroup(baseDir: string, file: string): (group: string)
    ensures !IsNullOrWhiteSpace(group) && group != "." && group != "\\"
  {
    assert !IsNullOrWhiteSpace(RootGroup) by { assert RootGroup[0] == 'R'; }
    var dir := GetDirectoryName(file).GetOr(baseDir);
    var rel := GetRelativePath(baseDir, dir);
    if IsNullOrWhiteSpace(rel) || rel == "." || rel == "\\" then RootGroup else rel
  }

  /** The entry LoadItems creates for a launchable file, given the icon resolved for it. */
  function EntryFor(baseDir: string, file: string, icon: Image): (item: AppItem)
    ensures item.fullPath == file && item.icon == Some(icon)
    ensures HasNoSeparator(item.name) && !IsNullOrWhiteSpace(item.relativeDirectory)
  {
    AppItem(GetFileNameWithoutExtension(file), file, RelativeGroup(baseDir, file), Some(icon), false, "File")
  }

  /** A file directly inside the base directory is grouped under "Raiz". */
  lemma RootFileGroup(baseDir: string, name: string)
    requires baseDir != "" && !IsSeparator(baseDir[|baseDir| - 1])
    requires HasNoSeparator(name)
    ensures RelativeGroup(baseDir, baseDir + "\\" + name) == RootGroup
  {
    DirectoryOfJoined(baseDir, name);
    assert TrimEndSeparators(baseDir) == baseDir;
  }

  /** A file further down is grouped under its whole directory path relative to the base directory. */
  lemma SubdirectoryGroup(baseDir: string, sub: string, name: string)
    requires baseDir != "" && !IsSeparator(baseDir[|baseDir| - 1])
    requires sub != "" && !IsSeparator(sub[0]) && !IsNullOrWhiteSpace(sub) && sub != "."
    requires HasNoSeparator(name)
    ensures RelativeGroup(baseDir, baseDir + "\\" + sub + "\\" + name) == sub
  {
    var dir := baseDir + "\\" + sub;
    DirectoryOfJoined(dir, name);
    assert baseDir + "\\" + sub + "\\" + name == dir + "\\" + name;
    assert TrimEndSeparators(baseDir) == baseDir;
    assert |Fold(dir)| != |Fold(baseDir)|;
    assert dir[..|baseDir|] == baseDir;
    assert dir[|baseDir| + 1..] == sub;
  }

  // ---------------------------------------------------------------- visibility filter

  /** MatchesSearch: a blank query matches everything, otherwise the trimmed query must occur in the name, path or group. */
  predicate MatchesSearch(item: AppItem, searchText: string)
    ensures IsNullOrWhiteSpace(searchText) ==> MatchesSearch(item, searchText)
  {
    TrimEmptyIffBlank(searchText);
    var q := Trim(searchText);
    q == ""
    || ContainsIgnoreCase(item.name, q)
    || ContainsIgnoreCase(item.fullPath, q)
    || ContainsIgnoreCase(item.relativeDirectory, q)
  }

  /** A query made only of white space matches every entry. */
  lemma BlankSearchMatchesAll(item: AppItem, searchText: string)
    requires IsNullOrWhiteSpace(searchText)
    ensures MatchesSearch(item, searchText)
  {
    TrimEmptyIffBlank(searchText);
  }

  /** The search ignores letter case: two queries that differ only in case match the same entries. */
  lemma SearchIgnoresCase(item: AppItem, s: string, t: string)
    requires Fold(s) == Fold(t)
    ensures MatchesSearch(item, s) == MatchesSearch(item, t)
  {
    FoldTrim(s);
    FoldTrim(t);
    FoldIdempotent(Trim(s));
    FoldIdempotent(Trim(t));
    assert |Trim(s)| == |Fold(Trim(s))|;
    assert |Trim(t)| == |Fold(Trim(t))|;
  }

  lemma SubstringFolds(needle: string, hay: string)
    requires IsSubstring(needle, hay)
    ensures IsSubstring(Fold(needle), Fold(hay))
  {
    var i: nat :| i <= |hay| && OccursAt(needle, hay, i);
    assert Fold(hay)[i..i + |needle|] == Fold(hay[i..i + |needle|]);
    assert OccursAt(Fold(needle), Fold(hay), i);
  }

  /** An entry whose name contains the trimmed query verbatim is matched. */
  lemma NameHitMatches(item: AppItem, searchText: string)
    requires IsSubstring(Trim(searchText), item.name)
    ensures MatchesSearch(item, searchText)
  {
    SubstringFolds(Trim(searchText), item.name);
  }

  /**
   * MatchesTipoCarpeta: the folder type of the entry's own directory, read from
   * the two sentinel files there; an entry without a directory always passes.
   */
  predicate MatchesTipoCarpeta(item: AppItem, tipo: TipoCarpeta, fileExists: string -> bool)
    ensures tipo == Ambos || item.fullPath == "" ==> MatchesTipoCarpeta(item, tipo, fileExists)
  {
    match GetDirectoryName(item.fullPath)
    case None => true
    case Some(dir) =>
      var hasPersonal := fileExists(Combine(dir, PersonalSentinel));
      var hasMixta := fileExists(Combine(dir, MixedSentinel));
      match tipo
      case Ambos => true
      case Personal => hasPersonal || hasMixta
      case Laboral => !hasPersonal && !hasMixta
  }

  /** Ambos accepts every entry, and Personal and Laboral split the entries that have a directory between them. */
  lemma FolderTypesPartition(item: AppItem, fileExists: string -> bool)
    ensures MatchesTipoCarpeta(item, Ambos, fileExists)
    ensures item.fullPath != "" ==>
      MatchesTipoCarpeta(item, Personal, fileExists) != MatchesTipoCarpeta(item, Laboral, fileExists)
    ensures item.fullPath == "" ==>
      MatchesTipoCarpeta(item, Personal, fileExists) && MatchesTipoCarpeta(item, Laboral, fileExists)
  {
  }

  /** GroupedSource_Filter: only an AppItem that passes the search and then the folder-type test is shown. */
  predicate FilterAccepts(obj: Option<AppItem>, searchText: string, tipo: TipoCarpeta, fileExists: string -> bool)
    ensures FilterAccepts(obj, searchText, tipo, fileExists) ==> obj.Some? && MatchesSearch(obj.value, searchText)
    ensures obj.Some? && tipo == Ambos ==>
      (FilterAccepts(obj, searchText, tipo, fileExists) <==> MatchesSearch(obj.value, searchText))
  {
    match obj
    case None => false
    case Some(item) => MatchesSearch(item, searchText) && MatchesTipoCarpeta(item, tipo, fileExists)
  }

  /** The entries the grouped view shows, in order. */
  function Visible(items: seq<AppItem>, searchText: string, tipo: TipoCarpeta, fileExists: string -> bool): (r: seq<AppItem>)
    ensures forall it :: it in r <==> it in items && FilterAccepts(Some(it), searchText, tipo, fileExists)
  {
    if items == [] then []
    else (if FilterAccepts(Some(items[0]), searchText, tipo, fileExists) then [items[0]] else [])
         + Visible(items[1..], searchText, tipo, fileExists)
  }

  /** `Items.Count(MatchesSearch)`. */
  function CountMatching(items: seq<AppItem>, searchText: string): (n: nat)
    ensures n <= |items|
  {
    if items == [] then 0
    else (if MatchesSearch(items[0], searchText) then 1 else 0) + CountMatching(items[1..], searchText)
  }

  /** The number in ResultCountText: the item count for a blank query, otherwise the matching ones. */
  function ResultCount(items: seq<AppItem>, searchText: string): (n: nat)
    ensures n <= |items|
  {
    if IsNullOrWhiteSpace(searchText) then |items| else CountMatching(items, searchText)
  }

  /**
   * The shortcut for a blank query agrees with counting: the count is always
   * the number of entries the search matches.  The folder-type selection is
   * not taken into account, so the count equals the number of entries shown
   * exactly when the selection is Ambos, and is never below it.
   */
  lemma {:induction false} ResultCountCountsSearchMatches(items: seq<AppItem>, searchText: string, tipo: TipoCarpeta, fileExists: string -> bool)
    ensures ResultCount(items, searchText) == CountMatching(items, searchText)
    ensures ResultCount(items, searchText) == |Visible(items, searchText, Ambos, fileExists)|
    ensures ResultCount(items, searchText) >= |Visible(items, searchText, tipo, fileExists)|
  {
    CountMatchingIsVisible(items, searchText, tipo, fileExists);
    if IsNullOrWhiteSpace(searchText) {
      BlankCountsAll(items, searchText);
    }
  }

  lemma {:induction false} CountMatchingIsVisible(items: seq<AppItem>, searchText: string, tipo: TipoCarpeta, fileExists: string -> bool)
    ensures CountMatching(items, searchText) == |Visible(items, searchText, Ambos, fileExists)|
    ensures CountMatching(items, searchText) >= |Visible(items, searchText, tipo, fileExists)|
  {
    if items != [] {
      CountMatchingIsVisible(items[1..], searchText, tipo, fileExists);
    }
  }

  lemma {:induction false} BlankCountsAll(items: seq<AppItem>, searchText: string)
    requires IsNullOrWhiteSpace(searchText)
    ensures CountMatching(items, searchText) == |items|
  {
    if items != [] {
      BlankSearchMatchesAll(items[0], searchText);
      BlankCountsAll(items[1..], searchText);
    }
  }

  // ---------------------------------------------------------------- rename

  /**
   * The rename rule of the context menu: nothing happens for a blank answer or
   * an unchanged name; otherwise the file moves to the new name, in the same
   * directory and with the original extension.
   */
  function RenameTarget(item: AppItem, newName: string): (target: Option<string>)
    ensures target.None? <==> IsNullOrWhiteSpace(newName) || newName == item.name
  {
    if IsNullOrWhiteSpace(newName) || newName == item.name then None
    else
      var directory := GetDirectoryName(item.fullPath).GetOr("");
      var extension := GetExtension(item.fullPath);
      Some(Combine(directory, newName + extension))
  }

  /**
   * For a plain new name the target keeps the directory and the extension of
   * the original file and has the new name as its name.
   */
  lemma RenameKeepsDirectoryAndExtension(item: AppItem, newName: string)
    requires RenameTarget(item, newName).Some?
    requires HasNoSeparator(newName) && ':' !in newName
    requires GetExtension(item.fullPath) != ""
    ensures var target := RenameTarget(item, newName).value;
      var directory := GetDirectoryName(item.fullPath).GetOr("");
      && target == DirectoryPrefix(directory) + newName + GetExtension(item.fullPath)
      && (directory == "" || !IsSeparator(directory[|directory| - 1]) ==>
            GetDirectoryName(target) == GetDirectoryName(item.fullPath))
      && GetExtension(target) == GetExtension(item.fullPath)
      && GetFileNameWithoutExtension(target) == newName
      && GetFileName(target) == newName + GetExtension(item.fullPath)
  {
    var directory := GetDirectoryName(item.fullPath).GetOr("");
    var ext := GetExtension(item.fullPath);
    var d := DirectoryPrefix(directory);
    var file := newName + ext;
    var target := RenameTarget(item, newName).value;
    assert target == d + file by {
      PlainNameNotRooted(newName, ext);
    }
    assert d + newName + ext == d + file;
    AppendedFileParts(d, newName, ext);
    if directory == "" || !IsSeparator(directory[|directory| - 1]) {
      assert GetDirectoryName(item.fullPath) == Some(directory);
      NamePlusExtensionHasNoSeparator(newName, ext);
      DirectoryOfPrefixed(directory, file);
    }
  }

  lemma PlainNameNotRooted(n: string, e: string)
    requires HasNoSeparator(n) && ':' !in n && IsExtension(e)
    ensures !IsPathRooted(n + e)
  {
    var file := n + e;
    if |n| >= 2 { assert file[1] == n[1]; }
    else if |n| == 1 { assert file[1] == e[0]; }
    if n != "" { assert file[0] == n[0]; } else { assert file[0] == e[0]; }
  }

  lemma AppendedFileParts(d: string, n: string, e: string)
    requires d == "" || IsSeparator(d[|d| - 1])
    requires HasNoSeparator(n) && IsExtension(e)
    ensures GetFileName(d + (n + e)) == n + e
    ensures GetExtension(d + (n + e)) == e
    ensures GetFileNameWithoutExtension(d + (n + e)) == n
  {
    var file := n + e;
    NamePlusExtensionHasNoSeparator(n, e);
    FileNameOfAppended(d, file);
    assert d + file == (d + n) + e;
    ExtensionOfAppended(d + n, e);
    NameWithoutExtensionOfAppended(d, n, e);
  }

  // ---------------------------------------------------------------- keyboard cycling

  /** The folder types in declaration order. */
  const TipoValues: seq<TipoCarpeta> := [Ambos, Personal, Laboral]

  function TipoIndex(t: TipoCarpeta): nat
  {
    match t
    case Ambos => 0
    case Personal => 1
    case Laboral => 2
  }

  /** Ctrl+T: the next folder type, wrapping around after the last. */
  function NextTipo(t: TipoCarpeta): (next: TipoCarpeta)
    ensures next != t
  {
    TipoValues[(TipoIndex(t) + 1) % |TipoValues|]
  }

  /** Pressing Ctrl+T always changes the selection, visits all three types and is back after three presses. */
  lemma NextTipoCycles(t: TipoCarpeta)
    ensures NextTipo(t) != t && NextTipo(NextTipo(t)) != t
    ensures NextTipo(NextTipo(NextTipo(t))) == t
    ensures {t, NextTipo(t), NextTipo(NextTipo(t))} == {Ambos, Personal, Laboral}
  {
  }

  /** Tab: the next tab index, wrapping to the first after the last (-1 means no tab selected). */
  function NextTab(selected: int, count: int): (next: int)
    requires count > 0 && -1 <= selected < count
    ensures 0 <= next < count
    ensures next == if selected == count - 1 then 0 else selected + 1
  {
    (selected + 1) % count
  }
}
