/**
 * The subset of `System.IO.Path` the launcher uses, for Windows paths in which
 * both '\' and '/' separate directories.  Root handling is simplified: a path
 * is split at its last separator only.
 */
module Paths {
  import opened Wrappers
  import opened Text

  predicate IsSeparator(c: char)
  {
    c == '\\' || c == '/'
  }

  predicate IsDot(c: char)
  {
    c == '.'
  }

  predicate IsDotOrSeparator(c: char)
  {
    IsDot(c) || IsSeparator(c)
  }

  predicate HasNoSeparator(s: string)
  {
    forall i :: 0 <= i < |s| ==> !IsSeparator(s[i])
  }

  /** Index of the last character satisfying `P`, or -1 when there is none. */
  function LastIndexWhere(s: string, P: char -> bool): (k: int)
    ensures -1 <= k < |s|
    ensures k >= 0 ==> P(s[k])
    ensures forall i :: k < i < |s| ==> !P(s[i])
    decreases |s|
  {
    if s == "" then -1
    else if P(s[|s| - 1]) then |s| - 1
    else LastIndexWhere(s[..|s| - 1], P)
  }

  /** The last index satisfying `P` is determined by the characters that do and do not satisfy it. */
  lemma LastIndexWhereAt(s: string, P: char -> bool, k: nat)
    requires k < |s| && P(s[k])
    requires forall i :: k < i < |s| ==> !P(s[i])
    ensures LastIndexWhere(s, P) == k
  {
  }

  /** `Path.GetFileName`: everything after the last separator. */
  function GetFileName(path: string): (name: string)
    ensures HasNoSeparator(name)
    ensures EndsWith(path, name)
  {
    path[LastIndexWhere(path, IsSeparator) + 1..]
  }

  /** An extension as `Path.GetExtension` returns it: a dot and at least one more character, none of them a dot or separator. */
  predicate IsExtension(e: string)
  {
    |e| >= 2 && e[0] == '.' && forall i :: 1 <= i < |e| ==> !IsDotOrSeparator(e[i])
  }

  /**
   * `Path.GetExtension`: from the last dot of the file name to the end, or ""
   * when the file name has no dot or ends with one.
   */
  function GetExtension(path: string): (ext: string)
    ensures ext == "" || IsExtension(ext)
    ensures EndsWith(path, ext)
  {
    var k := LastIndexWhere(path, IsDotOrSeparator);
    if k >= 0 && IsDot(path[k]) && k != |path| - 1 then path[k..] else ""
  }

  /** `Path.GetFileNameWithoutExtension`: the file name up to its last dot. */
  function GetFileNameWithoutExtension(path: string): (name: string)
    ensures HasNoSeparator(name)
  {
    var file := GetFileName(path);
    var k := LastIndexWhere(file, IsDot);
    if k < 0 then file else file[..k]
  }

  /**
   * `Path.GetDirectoryName`: everything before the last separator; "" for a
   * bare file name and null (None) for the empty path.
   */
  function GetDirectoryName(path: string): (dir: Option<string>)
    ensures dir.Some? <==> path != ""
    ensures dir.Some? ==> StartsWith(path, dir.value) && |dir.value| < |path|
  {
    if path == "" then None
    else
      var k := LastIndexWhere(path, IsSeparator);
      if k < 0 then Some("") else Some(path[..k])
  }

  /** `Path.IsPathRooted` on Windows: a leading separator or a drive letter with a colon. */
  predicate IsPathRooted(p: string)
    ensures IsPathRooted(p) ==> p != "" && (IsSeparator(p[0]) || (|p| >= 2 && p[1] == ':'))
  {
    (|p| >= 1 && IsSeparator(p[0])) || (|p| >= 2 && p[1] == ':' && (IsUpper(p[0]) || 'a' <= p[0] <= 'z'))
  }

  /**
   * `Path.Combine(a, b)` for two parts: a rooted `b` or an empty `a` gives
   * `b`, an empty `b` gives `a`, and otherwise `b` follows `a` with one '\\'
   * between them unless `a` already ends with a separator.
   */
  function Combine(a: string, b: string): (r: string)
    ensures IsPathRooted(b) || a == "" ==> r == b
    ensures !IsPathRooted(b) && a != "" ==> StartsWith(r, a) && EndsWith(r, b)
    ensures !IsPathRooted(b) && a != "" && (b == "" || IsSeparator(a[|a| - 1])) ==> |r| == |a| + |b|
    ensures !IsPathRooted(b) && a != "" && b != "" && !IsSeparator(a[|a| - 1]) ==>
      |r| == |a| + 1 + |b| && r[|a|] == '\\'
  {
    if IsPathRooted(b) || a == "" then b
    else if b == "" then a
    else if IsSeparator(a[|a| - 1]) then a + b
    else a + "\\" + b
  }

  /** The prefix `Combine` puts before a relative name: the directory, with a '\\' added unless it is empty or ends in a separator. */
  function DirectoryPrefix(dir: string): string
  {
    if dir == "" || IsSeparator(dir[|dir| - 1]) then dir else dir + "\\"
  }

  /** A directory path without its trailing separators, which `GetRelativePath` ignores; everything before them stays. */
  function TrimEndSeparators(s: string): (r: string)
    ensures |r| <= |s| && r == s[..|r|]
    ensures r != "" ==> !IsSeparator(r[|r| - 1])
    ensures forall i :: |r| <= i < |s| ==> IsSeparator(s[i])
  {
    if s != "" && IsSeparator(s[|s| - 1]) then TrimEndSeparators(s[..|s| - 1]) else s
  }

  /**
   * `Path.GetRelativePath(relativeTo, path)` for a path at or below
   * `relativeTo` (compared case-insensitively, as on Windows): "." for the
   * directory itself, otherwise the part below it.  Paths outside it are
   * returned unchanged.
   */
  function GetRelativePath(relativeTo: string, path: string): (rel: string)
    ensures EqualsIgnoreCase(path, TrimEndSeparators(relativeTo)) ==> rel == "."
    ensures rel != "." ==> EndsWith(path, rel)
  {
    var b := TrimEndSeparators(relativeTo);
    if EqualsIgnoreCase(path, b) then "."
    else if |b| < |path| && EqualsIgnoreCase(path[..|b|], b) && IsSeparator(path[|b|]) then path[|b| + 1..]
    else path
  }

  /** The file name of a directory-terminated prefix followed by a separator-free name is that name. */
  lemma FileNameOfAppended(d: string, x: string)
    requires d == "" || IsSeparator(d[|d| - 1])
    requires HasNoSeparator(x)
    ensures GetFileName(d + x) == x
  {
    var s := d + x;
    if d != "" {
      LastIndexWhereAt(s, IsSeparator, |d| - 1);
    } else {
      assert s == x;
    }
  }

  /** Appending an extension to anything makes it the extension of the result. */
  lemma ExtensionOfAppended(x: string, e: string)
    requires IsExtension(e)
    ensures GetExtension(x + e) == e
  {
    var s := x + e;
    LastIndexWhereAt(s, IsDotOrSeparator, |x|);
    assert s[|x|..] == e;
  }

  /** A separator-free name with an extension appended loses exactly that extension again. */
  lemma NameWithoutExtensionOfAppended(d: string, n: string, e: string)
    requires d == "" || IsSeparator(d[|d| - 1])
    requires HasNoSeparator(n) && IsExtension(e)
    ensures GetFileNameWithoutExtension(d + (n + e)) == n
  {
    var file := n + e;
    assert HasNoSeparator(file) by {
      forall i | 0 <= i < |file| ensures !IsSeparator(file[i]) {
        if i >= |n| { assert file[i] == e[i - |n|]; }
      }
    }
    FileNameOfAppended(d, file);
    LastIndexWhereAt(file, IsDot, |n|);
    assert file[..|n|] == n;
  }

  /** The directory of `dir\name` is `dir` when `name` holds no separator. */
  lemma DirectoryOfJoined(dir: string, name: string)
    requires HasNoSeparator(name)
    ensures GetDirectoryName(dir + "\\" + name) == Some(dir)
  {
    var s := dir + "\\" + name;
    LastIndexWhereAt(s, IsSeparator, |dir|);
    assert s[..|dir|] == dir;
  }

  /** A separator-free name placed under a directory that does not end in a separator has that directory. */
  lemma DirectoryOfPrefixed(dir: string, name: string)
    requires dir == "" || !IsSeparator(dir[|dir| - 1])
    requires name != "" && HasNoSeparator(name)
    ensures GetDirectoryName(DirectoryPrefix(dir) + name) == Some(dir)
  {
    if dir == "" {
      assert DirectoryPrefix(dir) + name == name;
    } else {
      DirectoryOfJoined(dir, name);
    }
  }

  /** A separator-free name followed by an extension is still separator-free. */
  lemma NamePlusExtensionHasNoSeparator(n: string, e: string)
    requires HasNoSeparator(n) && IsExtension(e)
    ensures HasNoSeparator(n + e)
  {
    var file := n + e;
    forall i | 0 <= i < |file| ensures !IsSeparator(file[i]) {
      if i >= |n| { assert file[i] == e[i - |n|]; }
    }
  }
}
