/**
 * The usage log: the `access_log` table of the launcher's SQLite database,
 * with one row per launched path counting its launches, the most-used query
 * and the clear-all operation.  The table is a map keyed by `full_path`, so
 * the UNIQUE constraint holds by construction; timestamps are passed in.
 */
module Usage {
  import opened Paths

  /** A row of `access_log` (its `full_path` is the map key). */
  datatype Row = Row(name: string, lastAccessTime: int, accessCount: nat)

  /** LoggedAppItem: what the most-used query reads back from a row. */
  datatype LoggedAppItem = LoggedAppItem(name: string, lastAccessTime: int, accessCount: int)

  function Project(row: Row): LoggedAppItem
  {
    LoggedAppItem(row.name, row.lastAccessTime, row.accessCount)
  }

  /** Some row of `keys` has the highest count among them. */
  lemma {:induction false} MaxExists(keys: set<string>, rows: map<string, Row>)
    requires keys != {} && keys <= rows.Keys
    ensures exists p :: p in keys && forall q :: q in keys ==> rows[q].accessCount <= rows[p].accessCount
    decreases |keys|
  {
    var x :| x in keys;
    if keys != {x} {
      var rest := keys - {x};
      MaxExists(rest, rows);
      var p :| p in rest && forall q :: q in rest ==> rows[q].accessCount <= rows[p].accessCount;
      var best := if rows[x].accessCount > rows[p].accessCount then x else p;
      forall q | q in keys ensures rows[q].accessCount <= rows[best].accessCount {
        if q != x {
          assert q in rest;
        }
      }
    }
  }

  /**
   * `keys` are distinct rows taken best first, `remaining` is every row not
   * taken yet, and none of those beats a row already taken.
   */
  ghost predicate Ranked(rows: map<string, Row>, keys: seq<string>, remaining: set<string>)
  {
    && remaining <= rows.Keys
    && |remaining| + |keys| == |rows|
    && (forall p :: p in rows && p !in remaining ==> p in keys)
    && (forall i :: 0 <= i < |keys| ==> keys[i] in rows && keys[i] !in remaining)
    && (forall i, j :: 0 <= i < j < |keys| ==> keys[i] != keys[j])
    && (forall i, j :: 0 <= i < j < |keys| ==> rows[keys[i]].accessCount >= rows[keys[j]].accessCount)
    && (forall p, i :: p in remaining && 0 <= i < |keys| ==> rows[p].accessCount <= rows[keys[i]].accessCount)
  }

  /** Taking a best remaining row keeps the ranking. */
  lemma TakeBest(rows: map<string, Row>, keys: seq<string>, remaining: set<string>, p: string)
    requires Ranked(rows, keys, remaining)
    requires p in remaining && forall q :: q in remaining ==> rows[q].accessCount <= rows[p].accessCount
    ensures Ranked(rows, keys + [p], remaining - {p})
  {
    var keys', remaining' := keys + [p], remaining - {p};
    assert |remaining'| == |remaining| - 1;
    forall i | 0 <= i < |keys'| ensures keys'[i] in rows && keys'[i] !in remaining' {
      if i < |keys| { assert keys'[i] == keys[i]; }
    }
    forall i, j | 0 <= i < j < |keys'| ensures rows[keys'[i]].accessCount >= rows[keys'[j]].accessCount {
      if j == |keys| { assert keys'[i] == keys[i]; }
    }
  }

  /**
   * The paths of the `n` rows with the highest counts, best first: the
   * ordering and limiting done by `ORDER BY access_count DESC LIMIT n`.
   */
  method RankRows(rows: map<string, Row>, n: nat) returns (keys: seq<string>)
    requires n <= |rows|
    ensures |keys| == n
    ensures forall i :: 0 <= i < n ==> keys[i] in rows
    ensures forall i, j :: 0 <= i < j < n ==> keys[i] != keys[j]
    ensures forall i, j :: 0 <= i < j < n ==> rows[keys[i]].accessCount >= rows[keys[j]].accessCount
    ensures forall p, i :: p in rows && p !in keys && 0 <= i < n ==> rows[p].accessCount <= rows[keys[i]].accessCount
  {
    var remaining := rows.Keys;
    keys := [];
    while |keys| < n
      invariant |keys| <= n
      invariant Ranked(rows, keys, remaining)
    {
      MaxExists(remaining, rows);
      var p :| p in remaining && forall q :: q in remaining ==> rows[q].accessCount <= rows[p].accessCount;
      TakeBest(rows, keys, remaining, p);
      keys := keys + [p];
      remaining := remaining - {p};
    }
  }

  /**
   * `items` are the rows at `keys` as the most-used query reads them back: as
   * many as `limit` allows (a negative limit is no limit), each row at most
   * once, best first, and no row left out has a higher count than one read.
   */
  ghost predicate TopRows(log: map<string, Row>, limit: int, keys: seq<string>, items: seq<LoggedAppItem>)
  {
    && |items| == |keys|
    && |items| == (if limit < 0 || limit >= |log| then |log| else limit)
    && (forall i :: 0 <= i < |keys| ==> keys[i] in log && items[i] == Project(log[keys[i]]))
    && (forall i, j :: 0 <= i < j < |keys| ==> keys[i] != keys[j])
    && (forall i, j :: 0 <= i < j < |items| ==> items[i].accessCount >= items[j].accessCount)
    && (forall p, i :: p in log && p !in keys && 0 <= i < |items| ==> log[p].accessCount <= items[i].accessCount)
  }

  /**
   * Every row counts the launches of its path in `history`, which is at least
   * one, and every launched path has its row.
   */
  ghost predicate Counts(log: map<string, Row>, history: seq<string>)
  {
    && (forall p :: p in history ==> p in log)
    && (forall p :: p in log ==> log[p].accessCount == multiset(history)[p] && log[p].accessCount >= 1)
  }

  /** The upsert of one launch keeps the rows in step with the history. */
  lemma UpsertCounts(log: map<string, Row>, history: seq<string>, path: string, row: Row)
    requires Counts(log, history)
    requires path in log ==> row.accessCount == log[path].accessCount + 1
    requires path !in log ==> row.accessCount == 1
    ensures Counts(log[path := row], history + [path])
  {
    var log', history' := log[path := row], history + [path];
    assert multiset(history') == multiset(history) + multiset{path};
    forall p | p in log'
      ensures log'[p].accessCount == multiset(history')[p]
    {
      if p == path && path !in log {
        assert path !in history;
      }
    }
  }

  class DatabaseHelper {
    /** Whether `access_log` has been created. */
    var tableExists: bool
    var accessLog: map<string, Row>
    /** The paths logged since the table was created or last cleared, oldest first. */
    ghost var history: seq<string>

    /** Without the table there are no rows; with it, the rows count the launches since the last clear. */
    ghost predicate Valid()
      reads this
    {
      && (!tableExists ==> accessLog == map[] && history == [])
      && Counts(accessLog, history)
    }

    /** A database file without the table yet. */
    constructor ()
      ensures Valid() && !tableExists && accessLog == map[]
    {
      tableExists := false;
      accessLog := map[];
      history := [];
    }

    /** `CREATE TABLE IF NOT EXISTS`: creates an empty table once and never touches existing rows. */
    method InitializeDatabase()
      requires Valid()
      modifies this
      ensures Valid() && tableExists
      ensures old(tableExists) ==> accessLog == old(accessLog) && history == old(history)
      ensures !old(tableExists) ==> accessLog == map[]
    {
      if !tableExists {
        tableExists := true;
        accessLog := map[];
        history := [];
      }
    }

    /**
     * The upsert: a new path gets a row with count 1, time `now` and the file
     * name; a known path has its count raised by one and its time set to
     * `now`.  Without the table the statement fails and nothing changes.
     */
    method LogAccess(fullPath: string, now: int) returns (ok: bool)
      requires Valid()
      modifies this
      ensures Valid() && ok == tableExists && tableExists == old(tableExists)
      ensures ok ==> history == old(history) + [fullPath]
      ensures ok && fullPath !in old(accessLog) ==>
        accessLog == old(accessLog)[fullPath := Row(GetFileNameWithoutExtension(fullPath), now, 1)]
      ensures ok && fullPath in old(accessLog) ==>
        var row := old(accessLog)[fullPath];
        accessLog == old(accessLog)[fullPath := Row(row.name, now, row.accessCount + 1)]
      ensures !ok ==> accessLog == old(accessLog) && history == old(history)
    {
      ok := tableExists;
      if ok {
        var row := if fullPath in accessLog
          then Row(accessLog[fullPath].name, now, accessLog[fullPath].accessCount + 1)
          else Row(GetFileNameWithoutExtension(fullPath), now, 1);
        UpsertCounts(accessLog, history, fullPath, row);
        accessLog := accessLog[fullPath := row];
        history := history + [fullPath];
      }
    }

    /**
     * `ORDER BY access_count DESC LIMIT limit`: the rows with the highest
     * counts, best first, as many as the limit allows (a negative limit is no
     * limit); rows with equal counts come in no particular order.  `keys` are
     * the paths of the rows read.
     */
    method GetTopUsedItems(limit: int) returns (ok: bool, items: seq<LoggedAppItem>, ghost keys: seq<string>)
      ensures ok == tableExists
      ensures TopRows(accessLog, limit, keys, items)
    {
      ok := tableExists;
      var n := if limit < 0 || limit >= |accessLog| then |accessLog| else limit;
      var rows := accessLog;
      var ranked := RankRows(rows, n);
      items := seq(|ranked|, i requires 0 <= i < |ranked| => Project(rows[ranked[i]]));
      keys := ranked;
    }

    /** `DELETE FROM access_log`: every row goes. */
    method ClearLog() returns (ok: bool)
      requires Valid()
      modifies this
      ensures Valid() && ok == tableExists && tableExists == old(tableExists)
      ensures ok ==> accessLog == map[] && history == []
      ensures !ok ==> accessLog == old(accessLog) && history == old(history)
    {
      ok := tableExists;
      if ok {
        accessLog := map[];
        history := [];
      }
    }
  }

  /** Launching the same path twice in a row raises its count by two and leaves every other row alone. */
  method LogTwice(db: DatabaseHelper, fullPath: string, t1: int, t2: int)
    requires db.Valid() && db.tableExists
    modifies db
    ensures db.Valid()
    ensures fullPath in db.accessLog && db.accessLog[fullPath].lastAccessTime == t2
    ensures db.accessLog[fullPath].accessCount ==
      (if fullPath in old(db.accessLog) then old(db.accessLog)[fullPath].accessCount else 0) + 2
    ensures forall p :: p != fullPath ==> (p in db.accessLog <==> p in old(db.accessLog))
    ensures forall p :: p != fullPath && p in db.accessLog ==> db.accessLog[p] == old(db.accessLog)[p]
  {
    var _ := db.LogAccess(fullPath, t1);
    var _ := db.LogAccess(fullPath, t2);
  }
}
