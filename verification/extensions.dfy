/**
 * The launchable-extension set: the extensions listed in the PATHEXT
 * environment variable plus the two shortcut extensions, compared ignoring
 * case (a HashSet built with StringComparer.OrdinalIgnoreCase).  The set is
 * kept as the case-folded spellings of its members.
 */
module Extensions {
  import opened Text
  import opened Paths

  const ShortcutExtension := ".lnk"
  const InternetShortcutExtension := ".url"

  /** A PATHEXT entry with a dot put in front when it lacks one. */
  function Dotted(raw: string): (e: string)
    ensures |e| > 0 && e[0] == '.'
    ensures raw != "" && raw[0] == '.' ==> e == raw
    ensures (raw == "" || raw[0] != '.') ==> e == "." + raw
  {
    if raw != "" && raw[0] == '.' then raw else "." + raw
  }

  /**
   * What the PATHEXT pieces add to the set: each non-empty piece, dotted and
   * folded (empty pieces are dropped, as `StringSplitOptions.RemoveEmptyEntries` does).
   */
  function PathExtEntries(tokens: seq<string>): set<string>
  {
    if tokens == [] then {}
    else
      var t := tokens[|tokens| - 1];
      PathExtEntries(tokens[..|tokens| - 1]) + (if t != "" then {Fold(Dotted(t))} else {})
  }

  /** The entries are exactly the dotted, folded non-empty pieces. */
  lemma {:induction false} PathExtEntriesMembers(tokens: seq<string>, e: string)
    ensures e in PathExtEntries(tokens) <==> exists t :: t in tokens && t != "" && e == Fold(Dotted(t))
  {
    if tokens != [] {
      var init, t := tokens[..|tokens| - 1], tokens[|tokens| - 1];
      PathExtEntriesMembers(init, e);
      assert tokens == init + [t];
      if e in PathExtEntries(tokens) && e !in PathExtEntries(init) {
        assert t in tokens;
      }
      if exists u :: u in tokens && u != "" && e == Fold(Dotted(u)) {
        var u :| u in tokens && u != "" && e == Fold(Dotted(u));
        if u != t {
          assert u in init;
        }
      }
    }
  }

  /** The folded members of the set built from `pathext` (an unset variable reads as ""). */
  function ExecExtensions(pathext: string): (exts: set<string>)
    ensures ShortcutExtension in exts && InternetShortcutExtension in exts
  {
    {ShortcutExtension, InternetShortcutExtension} + PathExtEntries(Split(pathext, ';'))
  }

  /** Builds the set as the source does: the two shortcut extensions, then one entry per PATHEXT piece. */
  method InitExecExtensions(pathext: string) returns (exts: set<string>)
    ensures exts == ExecExtensions(pathext)
  {
    exts := {ShortcutExtension, InternetShortcutExtension};
    var tokens := Split(pathext, ';');
    var i := 0;
    while i < |tokens|
      invariant 0 <= i <= |tokens|
      invariant exts == {ShortcutExtension, InternetShortcutExtension} + PathExtEntries(tokens[..i])
    {
      if tokens[i] != "" {
        exts := exts + {Fold(Dotted(tokens[i]))};
      }
      assert tokens[..i + 1][..i] == tokens[..i];
      i := i + 1;
    }
    assert tokens[..i] == tokens;
  }

  /** `HashSet.Contains` with the ignore-case comparer. */
  predicate HasExtension(exts: set<string>, ext: string)
  {
    Fold(ext) in exts
  }

  /** `IsLaunchable`: the path has a non-empty extension that is in the set. */
  predicate IsLaunchable(exts: set<string>, path: string)
    ensures IsLaunchable(exts, path) ==> IsExtension(GetExtension(path)) && HasExtension(exts, GetExtension(path))
  {
    var ext := GetExtension(path);
    ext != "" && HasExtension(exts, ext)
  }

  /** Every member starts with a dot and is already case-folded. */
  lemma ExecExtensionsShape(pathext: string, e: string)
    requires e in ExecExtensions(pathext)
    ensures |e| > 0 && e[0] == '.'
    ensures Fold(e) == e
  {
    if e != ShortcutExtension && e != InternetShortcutExtension {
      PathExtEntriesMembers(Split(pathext, ';'), e);
      var t :| t in Split(pathext, ';') && t != "" && e == Fold(Dotted(t));
      FoldIdempotent(Dotted(t));
    }
  }

  /** Each non-empty PATHEXT piece, dotted, is launchable in any letter case; so are .lnk and .url. */
  lemma ExecExtensionsComplete(pathext: string, path: string)
    requires var ext := GetExtension(path);
      || EqualsIgnoreCase(ext, ShortcutExtension)
      || EqualsIgnoreCase(ext, InternetShortcutExtension)
      || exists t :: t in Split(pathext, ';') && t != "" && EqualsIgnoreCase(ext, Dotted(t))
    ensures IsLaunchable(ExecExtensions(pathext), path)
  {
    var ext := GetExtension(path);
    assert Fold(ShortcutExtension) == ShortcutExtension;
    assert Fold(InternetShortcutExtension) == InternetShortcutExtension;
    PathExtEntriesMembers(Split(pathext, ';'), Fold(ext));
  }

  /** Nothing else is launchable: a launchable extension is .lnk, .url or a dotted PATHEXT piece, ignoring case. */
  lemma ExecExtensionsSound(pathext: string, path: string)
    requires IsLaunchable(ExecExtensions(pathext), path)
    ensures var ext := GetExtension(path);
      || EqualsIgnoreCase(ext, ShortcutExtension)
      || EqualsIgnoreCase(ext, InternetShortcutExtension)
      || exists t :: t in Split(pathext, ';') && t != "" && EqualsIgnoreCase(ext, Dotted(t))
  {
    MemberOrigin(pathext, GetExtension(path));
  }

  /** Where a member of the set comes from. */
  lemma MemberOrigin(pathext: string, ext: string)
    requires Fold(ext) in ExecExtensions(pathext)
    ensures || EqualsIgnoreCase(ext, ShortcutExtension)
            || EqualsIgnoreCase(ext, InternetShortcutExtension)
            || exists t :: t in Split(pathext, ';') && t != "" && EqualsIgnoreCase(ext, Dotted(t))
  {
    assert Fold(ShortcutExtension) == ShortcutExtension;
    assert Fold(InternetShortcutExtension) == InternetShortcutExtension;
    if Fold(ext) != ShortcutExtension && Fold(ext) != InternetShortcutExtension {
      PathExtEntriesMembers(Split(pathext, ';'), Fold(ext));
      var t :| t in Split(pathext, ';') && t != "" && Fold(ext) == Fold(Dotted(t));
      FoldIdempotent(Dotted(t));
    }
  }

  /** Whether a path is launchable depends on its extension only up to letter case. */
  lemma LaunchableIgnoresCase(exts: set<string>, p: string, q: string)
    requires EqualsIgnoreCase(GetExtension(p), GetExtension(q))
    ensures IsLaunchable(exts, p) == IsLaunchable(exts, q)
  {
    assert |GetExtension(p)| == |Fold(GetExtension(p))|;
  }
}
