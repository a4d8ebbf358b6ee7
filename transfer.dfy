/** `migrate_fields`: moving a column from UICFacility to UICWell, done for two
    columns. Each move lists the source field, creates the destination field
    when it is missing, caches `GUID -> value` from the source, writes the
    cached value into every destination row whose `Facility_FK` is cached, and
    deletes the source field only when no row update failed. */
module FieldTransfer {
  import opened Wrappers
  import opened Text
  import opened Errors
  import opened Backend

  /** One column move. */
  datatype FieldMove = FieldMove(
    fromTable: string,
    toTable: string,
    moveField: string,
    destField: string,
    alias: string,
    domain: string,
    length: int,
    default: Option<Value>)

  const KeyField := "GUID"
  const ForeignKey := "Facility_FK"

  const FacilityTable := "UICFacility"
  const WellTable := "UICWell"

  /** The migration-pet-status move keeps its name and defaults to 'NA'. */
  const PetStatusMove := FieldMove(FacilityTable, WellTable, "NoMigrationPetStatus", "NoMigrationPetStatus",
                                   "NoMigrationPetStatus", "UICNoMigrationPetStatusDomain", 2, Some(Str("NA")))

  /** The facility-type move renames the column to ClassIFacilityType and
      assigns no default value. */
  const FacilityTypeMove := FieldMove(FacilityTable, WellTable, "FacilityType", "ClassIFacilityType",
                                      "Facility Type for Class I Wells", "UICFacilityTypeDomain", 1, None)

  /** The destination field as `AddField` creates it (nullable TEXT). */
  function DestDef(m: FieldMove): FieldDef {
    FieldDef(m.destField, "TEXT", m.alias, Some(m.length), Some(m.domain), None)
  }

  datatype TransferReport =
    | AlreadyMigrated           // the source field is gone: nothing to do
    | Copied(complete: bool)    // data copied; `complete` iff no row update failed

  // ---------------------------------------------------------------- the cache

  /** The cache `{pk: value}` built from the source tuples `(GUID, value)`:
      later tuples overwrite earlier ones. */
  function CacheOf(pairs: seq<seq<Value>>): map<Value, Value>
    requires forall i :: 0 <= i < |pairs| ==> |pairs[i]| == 2
  {
    if |pairs| == 0 then map[]
    else CacheOf(pairs[..|pairs| - 1])[pairs[|pairs| - 1][0] := pairs[|pairs| - 1][1]]
  }

  /** A key is cached exactly when some source tuple carries it, and it holds
      the value of the LAST tuple carrying it. */
  lemma {:induction false} CacheLastWins(pairs: seq<seq<Value>>, k: Value)
    requires forall i :: 0 <= i < |pairs| ==> |pairs[i]| == 2
    ensures k in CacheOf(pairs) <==> exists j :: 0 <= j < |pairs| && pairs[j][0] == k
    ensures k in CacheOf(pairs) ==>
              exists j :: 0 <= j < |pairs| && pairs[j][0] == k && CacheOf(pairs)[k] == pairs[j][1]
                          && forall j' :: j < j' < |pairs| ==> pairs[j'][0] != k
    decreases |pairs|
  {
    if |pairs| > 0 {
      var n := |pairs| - 1;
      var init := pairs[..n];
      CacheLastWins(init, k);
      assert forall j :: 0 <= j < n ==> init[j] == pairs[j];
      if pairs[n][0] != k && k in CacheOf(pairs) {
        var j :| 0 <= j < n && init[j][0] == k && CacheOf(init)[k] == init[j][1]
                 && forall j' :: j < j' < n ==> init[j'][0] != k;
        assert pairs[j][0] == k && CacheOf(pairs)[k] == pairs[j][1];
      }
    }
  }

  /** The cache-building loop. */
  method BuildCache(pairs: seq<seq<Value>>) returns (cache: map<Value, Value>)
    requires forall i :: 0 <= i < |pairs| ==> |pairs[i]| == 2
    ensures cache == CacheOf(pairs)
  {
    cache := map[];
    var i := 0;
    while i < |pairs|
      invariant 0 <= i <= |pairs|
      invariant cache == CacheOf(pairs[..i])
    {
      var pk, status := pairs[i][0], pairs[i][1];
      assert pairs[..i + 1][..i] == pairs[..i];
      cache := cache[pk := status];
      i := i + 1;
    }
    assert pairs[..|pairs|] == pairs;
  }

  // ---------------------------------------------------------------- applying

  /** A destination row after the apply loop visited it. */
  function AppliedRow(row: Row, cache: map<Value, Value>, fk: string, field: string, failed: bool): Row {
    var key := Get(row, fk);
    if key in cache && !failed then row + map[fk := key, field := cache[key]] else row
  }

  /** The destination rows after the apply loop: a row whose key is cached and
      whose update did not fail holds the cached value and keeps its key; every
      other row is untouched. */
  function AppliedRows(rows: seq<Row>, cache: map<Value, Value>, fk: string, field: string,
                       path: string, faults: map<Call, Error>): (r: seq<Row>)
    requires fk != field
    ensures |r| == |rows|
    ensures forall i :: 0 <= i < |rows| ==> Get(r[i], fk) == Get(rows[i], fk)
    ensures forall i :: 0 <= i < |rows| && Get(rows[i], fk) !in cache ==> r[i] == rows[i]
    ensures forall i :: 0 <= i < |rows| && UpdateRow(path, i) in faults ==> r[i] == rows[i]
    ensures forall i :: 0 <= i < |rows| && Get(rows[i], fk) in cache && UpdateRow(path, i) !in faults ==>
              Get(r[i], field) == cache[Get(rows[i], fk)]
  {
    seq(|rows|, i requires 0 <= i < |rows| => AppliedRow(rows[i], cache, fk, field, UpdateRow(path, i) in faults))
  }

  /** Applying the same cache again changes nothing: re-running the copy after a
      partial failure writes the same values. */
  lemma AppliedRowsIdempotent(rows: seq<Row>, cache: map<Value, Value>, fk: string, field: string,
                              path: string, faults: map<Call, Error>)
    requires fk != field
    ensures AppliedRows(AppliedRows(rows, cache, fk, field, path, faults), cache, fk, field, path, faults)
         == AppliedRows(rows, cache, fk, field, path, faults)
  {
    var once := AppliedRows(rows, cache, fk, field, path, faults);
    var twice := AppliedRows(once, cache, fk, field, path, faults);
    forall i | 0 <= i < |rows|
      ensures twice[i] == once[i]
    {
      var key := Get(rows[i], fk);
      if key in cache && UpdateRow(path, i) !in faults {
        var cells := map[fk := key, field := cache[key]];
        assert once[i] == rows[i] + cells;
        assert Get(once[i], fk) == key;
        assert twice[i] == once[i] + cells;
        assert once[i] + cells == once[i];
      }
    }
  }

  /** The update calls the apply loop makes over the first `n` rows: one per
      row whose key is cached, in row order. */
  function UpdateCalls(rows: seq<Row>, fk: string, cache: map<Value, Value>, path: string, n: nat): seq<Call>
    requires n <= |rows|
  {
    if n == 0 then []
    else UpdateCalls(rows, fk, cache, path, n - 1)
         + (if Get(rows[n - 1], fk) in cache then [UpdateRow(path, n - 1)] else [])
  }

  /** No write of the apply loop over the first `n` rows is planned to fail. */
  predicate AllWritten(rows: seq<Row>, fk: string, cache: map<Value, Value>, path: string,
                       faults: map<Call, Error>, n: nat)
    requires n <= |rows|
  {
    n == 0 || (AllWritten(rows, fk, cache, path, faults, n - 1)
               && (Get(rows[n - 1], fk) in cache ==> UpdateRow(path, n - 1) !in faults))
  }

  lemma {:induction false} AllWrittenMeans(rows: seq<Row>, fk: string, cache: map<Value, Value>, path: string,
                                           faults: map<Call, Error>, n: nat)
    requires n <= |rows|
    ensures AllWritten(rows, fk, cache, path, faults, n)
        <==> forall j :: 0 <= j < n && Get(rows[j], fk) in cache ==> UpdateRow(path, j) !in faults
  {
    if n > 0 {
      AllWrittenMeans(rows, fk, cache, path, faults, n - 1);
    }
  }

  /** The backend with the rows of table `path` replaced and `calls` logged. */
  function WithRows(db: Geodatabase, path: string, rows: seq<Row>, calls: seq<Call>): Geodatabase
    requires path in db.tables
  {
    db.(tables := db.tables[path := db.tables[path].(rows := rows)], trace := db.trace + calls)
  }

  lemma WithRowsTwice(db: Geodatabase, path: string, a: seq<Row>, b: seq<Row>, c1: seq<Call>, c2: seq<Call>)
    requires path in db.tables
    ensures WithRows(WithRows(db, path, a, c1), path, b, c2) == WithRows(db, path, b, c1 + c2)
  {
    assert db.trace + c1 + c2 == db.trace + (c1 + c2);
  }

  lemma WithRowsByParts(db: Geodatabase, db': Geodatabase, path: string, rows: seq<Row>, calls: seq<Call>)
    requires path in db.tables && TablesOnly(db, db')
    requires db'.tables == db.tables[path := db.tables[path].(rows := rows)]
    requires db'.trace == db.trace + calls
    ensures db' == WithRows(db, path, rows, calls)
  {
  }

  /** One `cursor.updateRow` of the apply loop. */
  method UpdateOne(db: Geodatabase, path: string, i: nat, cells: map<string, Value>)
    returns (db': Geodatabase, failed: bool)
    requires path in db.tables && i < |db.tables[path].rows|
    ensures failed <==> UpdateRow(path, i) in db.faults
    ensures var rows := db.tables[path].rows;
            db' == WithRows(db, path, rows[i := if failed then rows[i] else rows[i] + cells], [UpdateRow(path, i)])
  {
    var written := db.UpdateRowAt(path, i, cells);
    db' := written.db;
    failed := written.result.Err?;
    if failed {
      var t := db.tables[path];
      assert t.rows[i := t.rows[i]] == t.rows;
      assert db.tables[path := t.(rows := t.rows)] == db.tables;
    }
  }

  /** The destination rows once the apply loop has visited the first `n`. */
  function Visited(rows: seq<Row>, cache: map<Value, Value>, fk: string, field: string,
                   path: string, faults: map<Call, Error>, n: nat): seq<Row>
    requires n <= |rows|
  {
    seq(|rows|, j requires 0 <= j < |rows| =>
      if j < n then AppliedRow(rows[j], cache, fk, field, UpdateRow(path, j) in faults) else rows[j])
  }

  lemma VisitedStep(rows: seq<Row>, cache: map<Value, Value>, fk: string, field: string,
                    path: string, faults: map<Call, Error>, n: nat)
    requires n < |rows|
    ensures Visited(rows, cache, fk, field, path, faults, n + 1)
         == Visited(rows, cache, fk, field, path, faults, n)[n := AppliedRow(rows[n], cache, fk, field, UpdateRow(path, n) in faults)]
    ensures Get(rows[n], fk) !in cache ==>
              Visited(rows, cache, fk, field, path, faults, n + 1) == Visited(rows, cache, fk, field, path, faults, n)
  {
  }

  /** One pass of the apply loop: row `i`, whose key the cursor reported as
      `key`, is written when the key is cached. */
  method VisitRow(db: Geodatabase, cur: Geodatabase, path: string, fk: string, field: string,
                  cache: map<Value, Value>, i: nat, key: Value)
    returns (cur': Geodatabase, failed: bool)
    requires fk != field && path in db.tables && i < |db.tables[path].rows|
    requires key == Get(db.tables[path].rows[i], fk)
    requires TablesOnly(db, cur)
    requires cur.tables == db.tables[path := db.tables[path].(rows := Visited(db.tables[path].rows, cache, fk, field, path, db.faults, i))]
    requires cur.trace == db.trace + UpdateCalls(db.tables[path].rows, fk, cache, path, i)
    ensures failed <==> key in cache && UpdateRow(path, i) in db.faults
    ensures TablesOnly(db, cur')
    ensures cur'.tables == db.tables[path := db.tables[path].(rows := Visited(db.tables[path].rows, cache, fk, field, path, db.faults, i + 1))]
    ensures cur'.trace == db.trace + UpdateCalls(db.tables[path].rows, fk, cache, path, i + 1)
  {
    var rows := db.tables[path].rows;
    VisitedStep(rows, cache, fk, field, path, db.faults, i);
    if key !in cache {
      return cur, false;
    }
    ghost var current := Visited(rows, cache, fk, field, path, db.faults, i);
    assert current[i] == rows[i];
    WithRowsByParts(db, cur, path, current, UpdateCalls(rows, fk, cache, path, i));
    cur', failed := UpdateOne(cur, path, i, map[fk := key, field := cache[key]]);
    WithRowsTwice(db, path, current, Visited(rows, cache, fk, field, path, db.faults, i + 1),
                  UpdateCalls(rows, fk, cache, path, i), [UpdateRow(path, i)]);
  }

  lemma VisitedAll(rows: seq<Row>, cache: map<Value, Value>, fk: string, field: string,
                   path: string, faults: map<Call, Error>)
    requires fk != field
    ensures Visited(rows, cache, fk, field, path, faults, |rows|) == AppliedRows(rows, cache, fk, field, path, faults)
  {
  }

  /** The apply loop proper, over the tuples an open update cursor yields:
      write the cached value where the key is cached, and report whether every
      such write succeeded. A failed write does not stop the loop. */
  method WriteCached(db: Geodatabase, path: string, fk: string, field: string, cache: map<Value, Value>,
                     tuples: seq<seq<Value>>)
    returns (db': Geodatabase, ok: bool)
    requires fk != field && path in db.tables
    requires tuples == Project(db.tables[path].rows, [fk, field])
    ensures var rows := db.tables[path].rows;
      && db' == WithRows(db, path, AppliedRows(rows, cache, fk, field, path, db.faults),
                         UpdateCalls(rows, fk, cache, path, |rows|))
      && ok == AllWritten(rows, fk, cache, path, db.faults, |rows|)
  {
    var rows := db.tables[path].rows;
    ok := true;
    var i := 0;
    db' := WithRows(db, path, rows, []);
    assert db.trace + [] == db.trace;
    assert Visited(rows, cache, fk, field, path, db.faults, 0) == rows;
    while i < |tuples|
      invariant 0 <= i <= |tuples| == |rows|
      invariant db'.tables == db.tables[path := db.tables[path].(rows := Visited(rows, cache, fk, field, path, db.faults, i))]
      invariant db'.trace == db.trace + UpdateCalls(rows, fk, cache, path, i)
      invariant TablesOnly(db, db')
      invariant ok == AllWritten(rows, fk, cache, path, db.faults, i)
    {
      var failed;
      db', failed := VisitRow(db, db', path, fk, field, cache, i, tuples[i][0]);
      ok := ok && !failed;
      i := i + 1;
    }
    VisitedAll(rows, cache, fk, field, path, db.faults);
    WithRowsByParts(db, db', path, AppliedRows(rows, cache, fk, field, path, db.faults), UpdateCalls(rows, fk, cache, path, i));
  }

  /** The apply loop: open an update cursor on the destination, then write the
      cached values. Only opening the cursor can fail the step. */
  method ApplyCache(db: Geodatabase, path: string, fk: string, field: string, cache: map<Value, Value>)
    returns (db': Geodatabase, r: Result<bool, Error>)
    requires fk != field
    ensures r.Err? ==> db' == db.Log(UpdateCursor(path, [fk, field]))
    ensures r.Err? <==> UpdateCursor(path, [fk, field]) in db.faults || path !in db.tables
                        || FirstMissing(db.tables[path], [fk, field]).Some?
    ensures r.Ok? ==>
      var rows := db.tables[path].rows;
      && db' == WithRows(db, path, AppliedRows(rows, cache, fk, field, path, db.faults),
                         [UpdateCursor(path, [fk, field])] + UpdateCalls(rows, fk, cache, path, |rows|))
      && r.value == AllWritten(rows, fk, cache, path, db.faults, |rows|)
  {
    var cursor := db.OpenUpdate(path, [fk, field]);
    if cursor.result.Err? {
      return cursor.db, Err(cursor.result.error);
    }
    var rows := db.tables[path].rows;
    var ok;
    db', ok := WriteCached(cursor.db, path, fk, field, cache, cursor.result.value);
    WithRowsTwice(db, path, rows, AppliedRows(rows, cache, fk, field, path, db.faults),
                  [UpdateCursor(path, [fk, field])], UpdateCalls(rows, fk, cache, path, |rows|));
    r := Ok(ok);
  }

  // ---------------------------------------------------------------- one move

  function SourcePath(sde: string, m: FieldMove): string { PathJoin(sde, m.fromTable) }
  function DestPath(sde: string, m: FieldMove): string { PathJoin(sde, m.toTable) }

  /** The destination table once its field is sure to exist: a missing field is
      added (existing rows hold `None` in it) and given the move's default. */
  function Prepared(t: Table, m: FieldMove): (r: Table)
    ensures HasField(r, m.destField)
    ensures |r.rows| == |t.rows|
  {
    if HasField(t, m.destField) then t
    else
      var r := AddColumn(t, DestDef(m)).(fields := t.fields + [DestDef(m).(default := m.default)]);
      assert FieldNames(r)[|t.fields|] == m.destField;
      r
  }

  /** What the move caches: the source's `(GUID, value)` tuples. */
  function SourcePairs(t: Table, m: FieldMove): (pairs: seq<seq<Value>>)
    ensures forall i :: 0 <= i < |pairs| ==> |pairs[i]| == 2
  {
    Project(t.rows, [KeyField, m.moveField])
  }

  /** `ListFields(from_table, move_field)` reports nothing. */
  predicate SourceFieldGone(db: Geodatabase, src: string, m: FieldMove) {
    ListFields(src, Some(m.moveField)) !in db.faults && src in db.tables && !HasField(db.tables[src], m.moveField)
  }

  /** Tables other than `a` and `b` are as they were. */
  ghost predicate OthersUnchanged(db: Geodatabase, db': Geodatabase, a: string, b: string) {
    forall p :: p != a && p != b ==>
      (p in db'.tables <==> p in db.tables) && (p in db.tables ==> db'.tables[p] == db.tables[p])
  }

  /** Only tables and the trace change, and the trace only grows. */
  predicate TablesOnly(db: Geodatabase, db': Geodatabase) {
    db'.domains == db.domains && db'.groups == db.groups && db'.rules == db.rules && db'.faults == db.faults
    && db.trace <= db'.trace
  }

  lemma OthersUnchangedTrans(db0: Geodatabase, db1: Geodatabase, db2: Geodatabase, a: string, b: string)
    requires OthersUnchanged(db0, db1, a, b) && OthersUnchanged(db1, db2, a, b)
    ensures OthersUnchanged(db0, db2, a, b)
  {
  }

  lemma NamedEmptyMeansAbsent(t: Table, name: string)
    ensures |Named(t.fields, name)| == 0 <==> !HasField(t, name)
  {
    if HasField(t, name) {
      var i :| 0 <= i < |FieldNames(t)| && FieldNames(t)[i] == name;
      assert t.fields[i].name == name;
    }
  }

  /** `ListFields(path, name)`: whether the table has the field. */
  method ListField(db: Geodatabase, path: string, name: string) returns (db': Geodatabase, r: Result<bool, Error>)
    ensures db' == db.Log(ListFields(path, Some(name)))
    ensures r.Err? <==> ListFields(path, Some(name)) in db.faults || path !in db.tables
    ensures r.Ok? ==> (r.value <==> HasField(db.tables[path], name))
  {
    var listed := db.ListFieldsOf(path, Some(name));
    db' := listed.db;
    if listed.result.Err? {
      return db', Err(listed.result.error);
    }
    NamedEmptyMeansAbsent(db.tables[path], name);
    r := Ok(|listed.result.value| > 0);
  }

  /** `AddField` followed by `AssignDefaultToField` on a table that lacks the field. */
  method AddDestField(db: Geodatabase, dst: string, m: FieldMove) returns (db': Geodatabase, r: Outcome<Error>)
    requires dst in db.tables && !HasField(db.tables[dst], m.destField)
    ensures TablesOnly(db, db')
    ensures r.Pass? ==> db'.tables == db.tables[dst := Prepared(db.tables[dst], m)]
    ensures r.Fail? ==> OthersUnchanged(db, db', dst, dst) && dst in db'.tables
  {
    var added := db.NewField(dst, DestDef(m));
    db' := added.db;
    if added.result.Err? {
      return db', Fail(added.result.error);
    }
    var defaulted := db'.AssignDefault(dst, m.destField, m.default);
    db' := defaulted.db;
    if defaulted.result.Err? {
      return db', Fail(defaulted.result.error);
    }
    assert db'.tables[dst].fields == Prepared(db.tables[dst], m).fields;
    r := Pass;
  }

  /** Create the destination field, with its default, when it is missing. */
  method EnsureDestField(db: Geodatabase, dst: string, m: FieldMove) returns (db': Geodatabase, r: Outcome<Error>)
    ensures TablesOnly(db, db') && OthersUnchanged(db, db', dst, dst)
    ensures dst in db'.tables <==> dst in db.tables
    ensures r.Pass? ==> dst in db.tables && db'.tables[dst] == Prepared(db.tables[dst], m)
  {
    var existing;
    db', existing := ListField(db, dst, m.destField);
    if existing.Err? {
      return db', Fail(existing.error);
    }
    if !existing.value {
      db', r := AddDestField(db', dst, m);
    } else {
      r := Pass;
    }
  }

  /** The source scan and the cache-building loop. */
  method ScanSource(db: Geodatabase, src: string, m: FieldMove) returns (db': Geodatabase, r: Result<map<Value, Value>, Error>)
    ensures db' == db.Log(SearchCursor(src, [KeyField, m.moveField]))
    ensures r.Ok? ==> src in db.tables && r.value == CacheOf(SourcePairs(db.tables[src], m))
  {
    var scanned := db.Search(src, [KeyField, m.moveField]);
    db' := scanned.db;
    if scanned.result.Err? {
      return db', Err(scanned.result.error);
    }
    var cache := BuildCache(scanned.result.value);
    r := Ok(cache);
  }

  /** Removing the moved field from the source. */
  method DropSource(db: Geodatabase, src: string, m: FieldMove) returns (db': Geodatabase, r: Outcome<Error>)
    ensures r.Pass? ==> src in db.tables
                        && db' == db.(tables := db.tables[src := DropColumns(db.tables[src], [m.moveField])])
                                    .Log(DeleteField(src, [m.moveField]))
    ensures r.Fail? ==> db' == db.Log(DeleteField(src, [m.moveField]))
  {
    var dropped := db.DeleteFields(src, [m.moveField]);
    db' := dropped.db;
    r := if dropped.result.Err? then Fail(dropped.result.error) else Pass;
  }

  /** Apply a cache to the destination, and drop the source field when every
      update succeeded. */
  method ApplyAndDrop(db: Geodatabase, src: string, dst: string, m: FieldMove, cache: map<Value, Value>)
    returns (db': Geodatabase, r: Result<bool, Error>)
    requires src != dst && m.destField != ForeignKey
    ensures TablesOnly(db, db')
    ensures r.Ok? ==> dst in db.tables
    ensures r.Ok? ==>
      var before := db.tables[dst];
      var after := before.(rows := AppliedRows(before.rows, cache, ForeignKey, m.destField, dst, db.faults));
      && (r.value ==> src in db.tables && db'.tables == db.tables[dst := after][src := DropColumns(db.tables[src], [m.moveField])])
      && (!r.value ==> db'.tables == db.tables[dst := after])
      && r.value == AllWritten(before.rows, ForeignKey, cache, dst, db.faults, |before.rows|)
    ensures r.Err? ==> OthersUnchanged(db, db', dst, dst) && (dst in db'.tables <==> dst in db.tables)
  {
    var ok;
    db', ok := ApplyCache(db, dst, ForeignKey, m.destField, cache);
    if ok.Err? {
      return db', Err(ok.error);
    }
    if !ok.value {
      return db', Ok(false);
    }
    var dropped;
    db', dropped := DropSource(db', src, m);
    if dropped.Fail? {
      return db', Err(dropped.error);
    }
    r := Ok(true);
  }

  /** Cache the source column, apply it to the destination, and drop the source
      field when every update succeeded. */
  method CopyColumn(db: Geodatabase, src: string, dst: string, m: FieldMove)
    returns (db': Geodatabase, r: Result<bool, Error>)
    requires src != dst && m.destField != ForeignKey
    ensures TablesOnly(db, db')
    ensures r.Ok? ==> src in db.tables && dst in db.tables
    ensures r.Ok? ==>
      var before := db.tables[dst];
      var cache := CacheOf(SourcePairs(db.tables[src], m));
      var after := before.(rows := AppliedRows(before.rows, cache, ForeignKey, m.destField, dst, db.faults));
      && (r.value ==> db'.tables == db.tables[dst := after][src := DropColumns(db.tables[src], [m.moveField])])
      && (!r.value ==> db'.tables == db.tables[dst := after])
      && r.value == AllWritten(before.rows, ForeignKey, cache, dst, db.faults, |before.rows|)
    ensures r.Err? ==> OthersUnchanged(db, db', dst, dst) && (dst in db'.tables <==> dst in db.tables)
  {
    var cache;
    db', cache := ScanSource(db, src, m);
    if cache.Err? {
      return db', Err(cache.error);
    }
    db', r := ApplyAndDrop(db', src, dst, m, cache.value);
  }

  /** Everything after the "already done" test: make sure the destination
      field exists, then copy the column. */
  method MoveColumn(db: Geodatabase, src: string, dst: string, m: FieldMove)
    returns (db': Geodatabase, r: Result<bool, Error>)
    requires src != dst && m.destField != ForeignKey
    ensures TablesOnly(db, db') && OthersUnchanged(db, db', src, dst)
    ensures dst in db'.tables <==> dst in db.tables
    ensures r.Ok? ==> src in db.tables && dst in db.tables && dst in db'.tables
    ensures r.Ok? ==>
      var before := Prepared(db.tables[dst], m);
      var cache := CacheOf(SourcePairs(db.tables[src], m));
      && db'.tables[dst] == before.(rows := AppliedRows(before.rows, cache, ForeignKey, m.destField, dst, db.faults))
      && r.value == AllWritten(before.rows, ForeignKey, cache, dst, db.faults, |before.rows|)
    ensures r == Ok(true) ==> src in db'.tables && db'.tables[src] == DropColumns(db.tables[src], [m.moveField])
    ensures r != Ok(true) ==> (src in db'.tables <==> src in db.tables) && (src in db.tables ==> db'.tables[src] == db.tables[src])
  {
    var prepared;
    db', prepared := EnsureDestField(db, dst, m);
    if prepared.Fail? {
      return db', Err(prepared.error);
    }
    ghost var db1 := db';
    db', r := CopyColumn(db', src, dst, m);
  }

  /** One column move (one half of `migrate_fields`). */
  method TransferField(db: Geodatabase, sde: string, m: FieldMove)
    returns (db': Geodatabase, r: Result<TransferReport, Error>)
    requires m.fromTable != m.toTable
    requires m.destField != ForeignKey
    // the "already done" test looks at the source field only ...
    ensures r == Ok(AlreadyMigrated) <==> SourceFieldGone(db, SourcePath(sde, m), m)
    // ... and then no field is added, no row written and nothing deleted
    ensures r == Ok(AlreadyMigrated) ==> db' == db.Log(ListFields(SourcePath(sde, m), Some(m.moveField)))
    // a copy leaves the destination field in place (created only when missing,
    // with the move's default) and filled from the cache, and the source
    // loses its field only after a complete copy: see `Transferred`
    ensures r.Ok? ==> Transferred(db, db', sde, m, r.value)
    ensures r != Ok(Copied(true)) ==>
      var src := SourcePath(sde, m);
      (src in db'.tables <==> src in db.tables) && (src in db.tables ==> db'.tables[src] == db.tables[src])
    // no other table changes, and nothing but tables and the trace
    ensures OthersUnchanged(db, db', SourcePath(sde, m), DestPath(sde, m))
    ensures DestPath(sde, m) in db'.tables <==> DestPath(sde, m) in db.tables
    ensures TablesOnly(db, db')
  {
    var src, dst := SourcePath(sde, m), DestPath(sde, m);
    if src == dst { PathJoinInjective(sde, m.fromTable, m.toTable); }
    var listed;
    db', listed := ListField(db, src, m.moveField);
    if listed.Err? {
      return db', Err(listed.error);
    }
    if !listed.value {
      return db', Ok(AlreadyMigrated);
    }
    var ok;
    db', ok := MoveColumn(db', src, dst, m);
    r := if ok.Err? then Err(ok.error) else Ok(Copied(ok.value));
  }

  /** What one column move did, given its report: an "already done" move
      left the tables alone; a copy left the destination prepared and filled
      from the cache; the source lost its field exactly after a complete
      copy. */
  ghost predicate Transferred(db: Geodatabase, db': Geodatabase, sde: string, m: FieldMove, rep: TransferReport)
    requires m.destField != ForeignKey
  {
    var src, dst := SourcePath(sde, m), DestPath(sde, m);
    && (rep == AlreadyMigrated ==> SourceFieldGone(db, src, m) && db'.tables == db.tables)
    && (rep.Copied? ==>
          && src in db.tables && dst in db.tables && dst in db'.tables
          && var before := Prepared(db.tables[dst], m);
             var cache := CacheOf(SourcePairs(db.tables[src], m));
             && db'.tables[dst] == before.(rows := AppliedRows(before.rows, cache, ForeignKey, m.destField, dst, db.faults))
             && rep.complete == AllWritten(before.rows, ForeignKey, cache, dst, db.faults, |before.rows|))
    && (rep == Copied(true) ==> src in db'.tables && db'.tables[src] == DropColumns(db.tables[src], [m.moveField]))
    && (rep != Copied(true) ==> (src in db'.tables <==> src in db.tables) && (src in db.tables ==> db'.tables[src] == db.tables[src]))
  }

  /** Preparing the destination keeps the fields it had. */
  lemma PreparedKeeps(t: Table, m: FieldMove, name: string)
    requires HasField(t, name)
    ensures HasField(Prepared(t, m), name)
  {
    if !HasField(t, m.destField) {
      var i :| 0 <= i < |FieldNames(t)| && FieldNames(t)[i] == name;
      assert FieldNames(Prepared(t, m))[i] == name;
    }
  }

  /** `migrate_fields`: the migration-pet-status move, then the facility-type
      move; an error in the first leaves the second unattempted. The tables
      are named relative to the workspace `sde`. `mid` is the backend between
      the two moves. */
  method MigrateFields(db: Geodatabase, sde: string) returns (db': Geodatabase, r: Result<seq<TransferReport>, Error>, ghost mid: Geodatabase)
    ensures r.Ok? ==> |r.value| == 2
    // each move's "already done" test sees the source as it was before the
    // step: the first move only touches its own column
    ensures r.Ok? ==> (r.value[0] == AlreadyMigrated <==> SourceFieldGone(db, SourcePath(sde, PetStatusMove), PetStatusMove))
    ensures r.Ok? ==> (r.value[1] == AlreadyMigrated <==> SourceFieldGone(db, SourcePath(sde, FacilityTypeMove), FacilityTypeMove))
    // each move does what a single move does, the second on the tables the
    // first left
    ensures r.Ok? ==> Transferred(db, mid, sde, PetStatusMove, r.value[0]) && Transferred(mid, db', sde, FacilityTypeMove, r.value[1])
    // two copies leave UICWell with both new fields, and two complete copies
    // leave UICFacility without both old ones
    ensures r.Ok? ==> BothMoved(db', sde, r.value[0], r.value[1])
    ensures OthersUnchanged(db, db', SourcePath(sde, PetStatusMove), DestPath(sde, PetStatusMove))
    ensures TablesOnly(db, db')
  {
    var first, second;
    db', first := TransferField(db, sde, PetStatusMove);
    mid := db';
    if first.Err? {
      return db', Err(first.error), mid;
    }
    FirstKeepsSecond(db, mid, sde, first.value);
    db', second := TransferField(db', sde, FacilityTypeMove);
    OthersUnchangedTrans(db, mid, db', SourcePath(sde, PetStatusMove), DestPath(sde, PetStatusMove));
    if second.Err? {
      return db', Err(second.error), mid;
    }
    r := Ok([first.value, second.value]);
    TwoMoves(db, mid, db', sde, first.value, second.value);
  }

  /** The first move leaves the second's "already done" test as it was:
      only a complete copy drops a column, and it drops its own. */
  lemma FirstKeepsSecond(db: Geodatabase, mid: Geodatabase, sde: string, first: TransferReport)
    requires Transferred(db, mid, sde, PetStatusMove, first) && TablesOnly(db, mid)
    ensures SourceFieldGone(mid, SourcePath(sde, FacilityTypeMove), FacilityTypeMove) <==> SourceFieldGone(db, SourcePath(sde, FacilityTypeMove), FacilityTypeMove)
  {
    var src := SourcePath(sde, PetStatusMove);
    assert src == SourcePath(sde, FacilityTypeMove);
    if src in db.tables && first == Copied(true) {
      DropColumnsHasField(db.tables[src], [PetStatusMove.moveField], FacilityTypeMove.moveField);
    }
  }

  /** What both moves leave: after two copies UICWell has both new fields,
      and after two complete copies UICFacility has lost both old ones. */
  ghost predicate BothMoved(db': Geodatabase, sde: string, first: TransferReport, second: TransferReport) {
    var src, dst := SourcePath(sde, PetStatusMove), DestPath(sde, PetStatusMove);
    && (first.Copied? && second.Copied? ==>
          dst in db'.tables && HasField(db'.tables[dst], PetStatusMove.destField) && HasField(db'.tables[dst], FacilityTypeMove.destField))
    && (first == Copied(true) && second == Copied(true) ==>
          src in db'.tables && !HasField(db'.tables[src], PetStatusMove.moveField) && !HasField(db'.tables[src], FacilityTypeMove.moveField))
  }

  /** Two moves, each doing what a single move does, the second on the
      tables the first left, leave both fields moved. */
  lemma TwoMoves(db: Geodatabase, mid: Geodatabase, db': Geodatabase, sde: string, first: TransferReport, second: TransferReport)
    requires Transferred(db, mid, sde, PetStatusMove, first) && Transferred(mid, db', sde, FacilityTypeMove, second)
    ensures BothMoved(db', sde, first, second)
  {
    var src, dst := SourcePath(sde, PetStatusMove), DestPath(sde, PetStatusMove);
    assert src == SourcePath(sde, FacilityTypeMove) && dst == DestPath(sde, FacilityTypeMove);
    if first.Copied? && second.Copied? {
      PreparedKeeps(mid.tables[dst], FacilityTypeMove, PetStatusMove.destField);
    }
    if first == Copied(true) && second == Copied(true) {
      DropColumnsHasField(mid.tables[src], [FacilityTypeMove.moveField], PetStatusMove.moveField);
      DropColumnsHasField(mid.tables[src], [FacilityTypeMove.moveField], FacilityTypeMove.moveField);
      DropColumnsHasField(db.tables[src], [PetStatusMove.moveField], PetStatusMove.moveField);
    }
  }
}
