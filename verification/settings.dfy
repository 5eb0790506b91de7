/**
 * The settings tab: a JSON document is flattened into `key = value` entries
 * whose keys are the property names on the way down joined by ':', and saving
 * splits every key on ':' again to rebuild the nested dictionaries.
 */
module Settings {
  import opened Wrappers
  import opened Text

  /** A parsed JSON element; arrays and primitives are kept as their text. */
  datatype Json = Object(members: seq<Member>) | Array(text: string) | Primitive(text: string)
  datatype Member = Member(name: string, value: Json)

  /** One row of the settings grid. */
  datatype SettingEntry = SettingEntry(key: string, value: string)

  /** The key separator of flattened settings. */
  const KeySeparator: char := ':'

  /**
   * The entries FlattenJson appends for `element` under `prefix`: one per
   * array or primitive, in document order, keyed by the prefix without its
   * trailing separators.
   */
  function Flattened(element: Json, prefix: string): (r: seq<SettingEntry>)
    ensures forall i :: 0 <= i < |r| ==> r[i].key == "" || r[i].key[|r[i].key| - 1] != KeySeparator
    decreases element
  {
    match element
    case Object(ms) => FlattenedMembers(ms, prefix)
    case Array(t) => [SettingEntry(TrimEndChar(prefix, KeySeparator), t)]
    case Primitive(t) => [SettingEntry(TrimEndChar(prefix, KeySeparator), t)]
  }

  function FlattenedMembers(ms: seq<Member>, prefix: string): (r: seq<SettingEntry>)
    ensures forall i :: 0 <= i < |r| ==> r[i].key == "" || r[i].key[|r[i].key| - 1] != KeySeparator
    decreases ms
  {
    if ms == [] then []
    else
      var last := ms[|ms| - 1];
      FlattenedMembers(ms[..|ms| - 1], prefix) + Flattened(last.value, prefix + last.name + [KeySeparator])
  }

  /** An object member whose value is an empty object leaves no entry behind. */
  lemma EmptyObjectLeavesNoEntry(name: string)
    ensures Flattened(Object([Member(name, Object([]))]), "") == []
  {
    var ms := [Member(name, Object([]))];
    assert ms[..0] == [];
    assert Flattened(Object([]), name + [KeySeparator]) == [];
    assert FlattenedMembers(ms, "") == FlattenedMembers([], "") + Flattened(Object([]), "" + name + [KeySeparator]);
  }

  // ---------------------------------------------------------------- leaves

  /** A non-object node of the document, with the property names leading to it. */
  datatype LeafValue = LeafValue(path: seq<string>, text: string)

  function Leaves(element: Json, path: seq<string>): seq<LeafValue>
    decreases element
  {
    match element
    case Object(ms) => MemberLeaves(ms, path)
    case Array(t) => [LeafValue(path, t)]
    case Primitive(t) => [LeafValue(path, t)]
  }

  function MemberLeaves(ms: seq<Member>, path: seq<string>): seq<LeafValue>
    decreases ms
  {
    if ms == [] then []
    else
      var last := ms[|ms| - 1];
      MemberLeaves(ms[..|ms| - 1], path) + Leaves(last.value, path + [last.name])
  }

  /** Every name followed by the separator. */
  function Prefix(path: seq<string>): string
  {
    if path == [] then "" else path[0] + [KeySeparator] + Prefix(path[1..])
  }

  /** The key of a leaf: its prefix without trailing separators. */
  function KeyOf(path: seq<string>): string
  {
    TrimEndChar(Prefix(path), KeySeparator)
  }

  function Entries(leaves: seq<LeafValue>): (r: seq<SettingEntry>)
    ensures |r| == |leaves|
    ensures forall i :: 0 <= i < |leaves| ==> r[i] == SettingEntry(KeyOf(leaves[i].path), leaves[i].text)
  {
    seq(|leaves|, i requires 0 <= i < |leaves| => SettingEntry(KeyOf(leaves[i].path), leaves[i].text))
  }

  lemma {:induction false} PrefixAppend(path: seq<string>, name: string)
    ensures Prefix(path + [name]) == Prefix(path) + name + [KeySeparator]
    decreases |path|
  {
    if path != [] {
      assert (path + [name])[1..] == path[1..] + [name];
      PrefixAppend(path[1..], name);
    }
  }

  /** FlattenJson emits exactly one entry per array or primitive, keyed by the names leading to it. */
  lemma {:induction false} FlattenedIsLeaves(element: Json, path: seq<string>)
    ensures Flattened(element, Prefix(path)) == Entries(Leaves(element, path))
    decreases element
  {
    match element
    case Object(ms) => FlattenedMembersIsLeaves(ms, path);
    case Array(_) =>
    case Primitive(_) =>
  }

  lemma {:induction false} FlattenedMembersIsLeaves(ms: seq<Member>, path: seq<string>)
    ensures FlattenedMembers(ms, Prefix(path)) == Entries(MemberLeaves(ms, path))
    decreases ms
  {
    if ms != [] {
      var last := ms[|ms| - 1];
      FlattenedMembersIsLeaves(ms[..|ms| - 1], path);
      PrefixAppend(path, last.name);
      FlattenedIsLeaves(last.value, path + [last.name]);
      var a := MemberLeaves(ms[..|ms| - 1], path);
      var b := Leaves(last.value, path + [last.name]);
      assert Entries(a + b) == Entries(a) + Entries(b);
    }
  }

  // ---------------------------------------------------------------- well-formed documents

  /** A property name that survives the round trip: not empty and free of the separator. */
  predicate CleanName(s: string)
  {
    s != "" && KeySeparator !in s
  }

  /** Every property name is clean and the names of each object are distinct. */
  predicate WellFormed(element: Json)
    decreases element
  {
    match element
    case Object(ms) => MembersWellFormed(ms)
    case Array(_) => true
    case Primitive(_) => true
  }

  predicate MembersWellFormed(ms: seq<Member>)
    decreases ms
  {
    ms == [] ||
    (var last := ms[|ms| - 1];
     && MembersWellFormed(ms[..|ms| - 1])
     && CleanName(last.name)
     && (forall i :: 0 <= i < |ms| - 1 ==> ms[i].name != last.name)
     && WellFormed(last.value))
  }

  /** Every leaf below `path` extends it with clean names only. */
  lemma {:induction false} LeavesExtend(element: Json, path: seq<string>)
    requires WellFormed(element)
    ensures forall l :: l in Leaves(element, path) ==>
      |path| <= |l.path| && l.path[..|path|] == path &&
      forall i :: |path| <= i < |l.path| ==> CleanName(l.path[i])
    decreases element
  {
    match element
    case Object(ms) => MemberLeavesExtend(ms, path);
    case Array(_) =>
    case Primitive(_) =>
  }

  lemma {:induction false} MemberLeavesExtend(ms: seq<Member>, path: seq<string>)
    requires MembersWellFormed(ms)
    ensures forall l :: l in MemberLeaves(ms, path) ==>
      |path| < |l.path| && l.path[..|path|] == path &&
      (exists k :: 0 <= k < |ms| && l.path[|path|] == ms[k].name) &&
      forall i :: |path| <= i < |l.path| ==> CleanName(l.path[i])
    decreases ms
  {
    if ms != [] {
      var last := ms[|ms| - 1];
      var init := ms[..|ms| - 1];
      var child := path + [last.name];
      MemberLeavesExtend(init, path);
      LeavesExtend(last.value, child);
      forall l | l in MemberLeaves(ms, path)
        ensures |path| < |l.path| && l.path[..|path|] == path
        ensures exists k :: 0 <= k < |ms| && l.path[|path|] == ms[k].name
        ensures forall i :: |path| <= i < |l.path| ==> CleanName(l.path[i])
      {
        if l in MemberLeaves(init, path) {
          var k :| 0 <= k < |init| && l.path[|path|] == init[k].name;
          assert ms[k] == init[k];
        } else {
          assert l in Leaves(last.value, child);
          assert l.path[..|child|] == child;
          assert l.path[..|path|] == child[..|path|];
          assert l.path[|path|] == child[|path|];
        }
      }
    }
  }

  /** Two paths that differ at some position shared by both: neither lies inside the other. */
  predicate Diverge(p: seq<string>, q: seq<string>)
  {
    exists i :: 0 <= i < |p| && i < |q| && p[i] != q[i]
  }

  /** Any two distinct leaves of a well-formed document have diverging paths. */
  predicate PairwiseDiverge(leaves: seq<LeafValue>)
  {
    forall a, b :: 0 <= a < |leaves| && 0 <= b < |leaves| && a != b ==> Diverge(leaves[a].path, leaves[b].path)
  }

  lemma {:induction false} LeavesDiverge(element: Json, path: seq<string>)
    requires WellFormed(element)
    ensures PairwiseDiverge(Leaves(element, path))
    decreases element
  {
    match element
    case Object(ms) => MemberLeavesDiverge(ms, path);
    case Array(_) =>
    case Primitive(_) =>
  }

  lemma {:induction false} MemberLeavesDiverge(ms: seq<Member>, path: seq<string>)
    requires MembersWellFormed(ms)
    ensures PairwiseDiverge(MemberLeaves(ms, path))
    decreases ms
  {
    if ms != [] {
      var last := ms[|ms| - 1];
      var init := ms[..|ms| - 1];
      var child := path + [last.name];
      var A := MemberLeaves(init, path);
      var B := Leaves(last.value, child);
      MemberLeavesDiverge(init, path);
      LeavesDiverge(last.value, child);
      MemberLeavesExtend(init, path);
      LeavesExtend(last.value, child);
      var all := A + B;
      forall a, b | 0 <= a < |all| && 0 <= b < |all| && a != b
        ensures Diverge(all[a].path, all[b].path)
      {
        if a < |A| && b < |A| {
          assert all[a] == A[a] && all[b] == A[b];
        } else if a >= |A| && b >= |A| {
          assert all[a] == B[a - |A|] && all[b] == B[b - |A|];
        } else {
          var x := if a < |A| then a else b;
          var y := if a < |A| then b else a;
          assert all[x] in A && all[y] in B;
          var k :| 0 <= k < |init| && all[x].path[|path|] == init[k].name;
          assert all[y].path[..|child|] == child;
          assert all[y].path[|path|] == last.name;
          assert all[x].path[|path|] != all[y].path[|path|];
        }
      }
    }
  }

  // ---------------------------------------------------------------- the rebuilt dictionaries

  /** A value of the rebuilt settings: a nested dictionary or a plain value. */
  datatype Setting = Section(children: map<string, Setting>) | Value(text: string)

  /**
   * One step of SaveSettings: walk down `keys` except the last, replacing any
   * missing or non-dictionary intermediate by a new dictionary, and store the
   * value under the last key.
   */
  function Insert(d: map<string, Setting>, keys: seq<string>, v: string): (r: map<string, Setting>)
    requires |keys| >= 1
    ensures r.Keys == d.Keys + {keys[0]}
    ensures forall k :: k in d && k != keys[0] ==> r[k] == d[k]
    decreases |keys|
  {
    if |keys| == 1 then d[keys[0] := Value(v)]
    else
      var child := if keys[0] in d && d[keys[0]].Section? then d[keys[0]].children else map[];
      d[keys[0] := Section(Insert(child, keys[1..], v))]
  }

  /** What the rebuilt dictionaries hold at `keys`, if anything. */
  function Lookup(d: map<string, Setting>, keys: seq<string>): Option<Setting>
    requires |keys| >= 1
    decreases |keys|
  {
    if keys[0] !in d then None
    else if |keys| == 1 then Some(d[keys[0]])
    else if d[keys[0]].Section? then Lookup(d[keys[0]].children, keys[1..])
    else None
  }

  /** The dictionaries SaveSettings builds from the grid, entry after entry. */
  function Unflatten(entries: seq<SettingEntry>): (r: map<string, Setting>)
    ensures forall i :: 0 <= i < |entries| ==> Split(entries[i].key, KeySeparator)[0] in r
  {
    if entries == [] then map[]
    else
      var last := entries[|entries| - 1];
      Insert(Unflatten(entries[..|entries| - 1]), Split(last.key, KeySeparator), last.value)
  }

  /** A value just stored is found at its keys. */
  lemma {:induction false} InsertThenLookup(d: map<string, Setting>, keys: seq<string>, v: string)
    requires |keys| >= 1
    ensures Lookup(Insert(d, keys, v), keys) == Some(Value(v))
    decreases |keys|
  {
    if |keys| > 1 {
      var child := if keys[0] in d && d[keys[0]].Section? then d[keys[0]].children else map[];
      InsertThenLookup(child, keys[1..], v);
    }
  }

  /** Storing a value leaves whatever lies on a diverging path as it was. */
  lemma {:induction false} InsertKeepsOthers(d: map<string, Setting>, p: seq<string>, q: seq<string>, v: string)
    requires |p| >= 1 && |q| >= 1 && Diverge(p, q)
    ensures Lookup(Insert(d, p, v), q) == Lookup(d, q)
    decreases |p|
  {
    if p[0] == q[0] {
      var i :| 0 <= i < |p| && i < |q| && p[i] != q[i];
      assert p[1..][i - 1] == p[i] && q[1..][i - 1] == q[i];
      var child := if p[0] in d && d[p[0]].Section? then d[p[0]].children else map[];
      InsertKeepsOthers(child, p[1..], q[1..], v);
    }
  }

  /**
   * The value of an entry survives saving unless a later entry is stored on a
   * path that does not diverge from its own: the last write wins.
   */
  lemma {:induction false} LastWriteWins(entries: seq<SettingEntry>, i: nat)
    requires i < |entries|
    requires forall k :: i < k < |entries| ==>
      Diverge(Split(entries[k].key, KeySeparator), Split(entries[i].key, KeySeparator))
    ensures Lookup(Unflatten(entries), Split(entries[i].key, KeySeparator)) == Some(Value(entries[i].value))
    decreases |entries|
  {
    var n := |entries|;
    var last := entries[n - 1];
    var before := Unflatten(entries[..n - 1]);
    if i == n - 1 {
      InsertThenLookup(before, Split(last.key, KeySeparator), last.value);
    } else {
      var init := entries[..n - 1];
      assert init[i] == entries[i];
      forall k | i < k < |init|
        ensures Diverge(Split(init[k].key, KeySeparator), Split(init[i].key, KeySeparator))
      {
        assert init[k] == entries[k];
      }
      LastWriteWins(init, i);
      InsertKeepsOthers(before, Split(last.key, KeySeparator), Split(entries[i].key, KeySeparator), last.value);
    }
  }

  /** Two entries with the same key: the later value is the one saved. */
  lemma DuplicateKeyOverwrites(entries: seq<SettingEntry>, key: string, first: string, second: string)
    ensures Lookup(Unflatten(entries + [SettingEntry(key, first), SettingEntry(key, second)]), Split(key, KeySeparator))
      == Some(Value(second))
  {
    var all := entries + [SettingEntry(key, first), SettingEntry(key, second)];
    assert all[..|all| - 1] == entries + [SettingEntry(key, first)];
    InsertThenLookup(Unflatten(all[..|all| - 1]), Split(key, KeySeparator), second);
  }

  // ---------------------------------------------------------------- round trip

  lemma {:induction false} PrefixIsJoin(path: seq<string>)
    requires |path| >= 1
    ensures Prefix(path) == Join(path, KeySeparator) + [KeySeparator]
    decreases |path|
  {
    if |path| > 1 {
      PrefixIsJoin(path[1..]);
    }
  }

  lemma {:induction false} JoinEndsWithLast(path: seq<string>)
    requires |path| >= 1 && path[|path| - 1] != ""
    ensures var s := Join(path, KeySeparator); s != "" && s[|s| - 1] == path[|path| - 1][|path[|path| - 1]| - 1]
    decreases |path|
  {
    if |path| > 1 {
      JoinEndsWithLast(path[1..]);
    }
  }

  /** A path of clean names is recovered by splitting its key. */
  lemma KeyOfSplits(path: seq<string>)
    requires |path| >= 1 && forall i :: 0 <= i < |path| ==> CleanName(path[i])
    ensures Split(KeyOf(path), KeySeparator) == path
  {
    PrefixIsJoin(path);
    var s := Join(path, KeySeparator);
    JoinEndsWithLast(path);
    var lastName := path[|path| - 1];
    assert lastName[|lastName| - 1] in lastName;
    assert (s + [KeySeparator])[..|s|] == s;
    assert KeyOf(path) == s;
    forall p | p in path ensures KeySeparator !in p {
      var i :| 0 <= i < |path| && path[i] == p;
    }
    SplitJoin(path, KeySeparator);
  }

  /**
   * Saving the grid of a freshly loaded well-formed object stores every
   * array or primitive of the document at the path of its property names.
   */
  lemma SettingsRoundTrip(document: Json)
    requires document.Object? && WellFormed(document)
    ensures forall l :: l in Leaves(document, []) ==>
      |l.path| >= 1 && Lookup(Unflatten(Flattened(document, "")), l.path) == Some(Value(l.text))
  {
    var leaves := Leaves(document, []);
    var entries := Flattened(document, "");
    FlattenedIsLeaves(document, []);
    assert entries == Entries(leaves);
    MemberLeavesExtend(document.members, []);
    LeavesDiverge(document, []);
    EntryKeysSplit(leaves);
    forall l | l in leaves
      ensures |l.path| >= 1 && Lookup(Unflatten(entries), l.path) == Some(Value(l.text))
    {
      var i :| 0 <= i < |leaves| && leaves[i] == l;
      LastWriteWins(entries, i);
    }
  }

  /** The key of every entry of clean, non-empty leaf paths splits back into its path. */
  lemma EntryKeysSplit(leaves: seq<LeafValue>)
    requires forall l :: l in leaves ==> |l.path| >= 1 && forall i :: 0 <= i < |l.path| ==> CleanName(l.path[i])
    ensures forall k :: 0 <= k < |leaves| ==> Split(Entries(leaves)[k].key, KeySeparator) == leaves[k].path
  {
    forall k | 0 <= k < |leaves| ensures Split(Entries(leaves)[k].key, KeySeparator) == leaves[k].path {
      assert leaves[k] in leaves;
      KeyOfSplits(leaves[k].path);
    }
  }
}
