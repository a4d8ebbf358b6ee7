/** The migration steps of `migrations.py` other than the field moves and the
    contingent values, and the order `migrate` runs them in. Each step takes
    the backend and gives back the backend after it; an exception the source
    does not catch ends the step with `Fail`/`Err` and the whole migration
    with it. */
module Migrations {
  import opened Wrappers
  import opened Text
  import opened Errors
  import opened Backend
  import opened FieldTransfer
  import Contingency

  // ---------------------------------------------------------------- the migration's data

  const TablesToDelete := [
    "UICAlternateDisposal", "UICAquiferRemediation", "UICBMPElement", "UICClassIConstituent",
    "UICClassIWaste", "UICConstructionElement", "UICDeepWellOperation", "UICVerticalWellEvent",
    "DEQFacilities", "UICSCHEMATRONERRORCODES", "UICToolbox"]

  const SkipTables := ["Counties", "ZipCodes", "Municipalities", "SDE_compress_log", "Version_Information"]

  /** One `add` entry: the table it names and the field it creates. */
  datatype FieldAdd = FieldAdd(inTable: string, def: FieldDef)

  /** One entry of the modifications: fields to drop, then fields to add. */
  datatype TableChange = TableChange(table: string, adds: seq<FieldAdd>, deletes: seq<string>)

  function Nullable(name: string, fieldType: string, alias: string, length: Option<int>): FieldDef {
    FieldDef(name, fieldType, alias, length, None, None)
  }

  const TableModifications := [
    TableChange("UICFacility", [], ["FRSID", "FacilityState"]),
    TableChange("UICWell",
      [FieldAdd("UICWell", Nullable("WellDepth", "LONG", "Well Depth in Feet", None))],
      ["ConvertedOGWell", "LocationMethod", "LocationAccuracy"]),
    TableChange("UICInspection", [],
      ["ICISCompMonActReason", "ICISCompMonType", "ICISCompActType", "ICISMOAPriority", "ICISRegionalPriority"]),
    TableChange("UICContact", [], ["ContactFax"]),
    TableChange("UICArtPen",
      [FieldAdd("UICArtPen", Nullable("EditedBy", "TEXT", "EditedBy", Some(40))),
       FieldAdd("UICArtPen", Nullable("ArtPenWellDepth", "LONG", "ArtPenWellDepth", None))],
      ["EditedBy"])]

  const DomainsToDelete := [
    "UICAlternateDisposalTypeDomain", "UICAquiferRemediationDomain", "UICBMPElementTypeDomain",
    "UICConcentrationUnitDomain", "UICConstructionElementTypeDomain", "UICEventTypeDomain",
    "UICEventUnitsDomain", "UICCityDomain", "UICZoningCategoryDomain", "UICLocationMethodDomain",
    "UICLocationalAccuracyDomain", "UICICISCompActTypeDomain", "UICICISCompMonActReasonDomain",
    "UICICISMonitoringTypeDomain"]

  /** One coded value to add to a domain. */
  datatype DomainChange = DomainChange(domain: string, code: Value, description: string)

  const DomainsToUpdate := [
    DomainChange("UICArtPenCAType", Str("5"), "waiting"),
    DomainChange("UICNoMigrationPetStatusDomain", Str("WA"), "waiting"),
    DomainChange("UICMITRemediationActionDomain", Str("WA"), "waiting")]

  // ---------------------------------------------------------------- clean_up

  /** `clean_up`: `Compress`, then `AnalyzeDatasets`; a failure of either is
      reported and ignored, so both are always attempted and the step never
      fails. */
  method CleanUp(db: Geodatabase) returns (db': Geodatabase)
    ensures db' == db.(trace := db.trace + [Compress, AnalyzeDatasets])
  {
    var compressed := db.CompressDatabase();
    var analyzed := compressed.db.Analyze();
    db' := analyzed.db;
  }

  // ---------------------------------------------------------------- delete_tables

  function DeleteCalls(sde: string, names: seq<string>): (r: seq<Call>)
    ensures |r| == |names|
    ensures forall i :: 0 <= i < |names| ==> r[i] == DeleteDataset(PathJoin(sde, names[i]))
  {
    seq(|names|, i requires 0 <= i < |names| => DeleteDataset(PathJoin(sde, names[i])))
  }

  /** The paths of the first `n` names. */
  function PathsOf(sde: string, names: seq<string>, n: nat): set<string>
    requires n <= |names|
  {
    set i | 0 <= i < n :: PathJoin(sde, names[i])
  }

  lemma PathsOfNext(sde: string, names: seq<string>, i: nat)
    requires i < |names|
    ensures PathsOf(sde, names, i + 1) == PathsOf(sde, names, i) + {PathJoin(sde, names[i])}
  {
  }

  /** The `i`-th `Delete` goes through: its call is not planned to fail and
      its table exists, not having been deleted by an earlier name. */
  predicate Deletes(tables: map<string, Table>, faults: map<Call, Error>, sde: string, names: seq<string>, i: nat)
    requires i < |names|
  {
    var path := PathJoin(sde, names[i]);
    DeleteDataset(path) !in faults && path in tables && path !in PathsOf(sde, names, i)
  }

  /** The index of the first `Delete` from `from` on that does not go
      through, or the length when they all do. */
  function FirstBlocked(tables: map<string, Table>, faults: map<Call, Error>, sde: string, names: seq<string>, from: nat): (k: nat)
    requires from <= |names|
    ensures from <= k <= |names|
    ensures forall i :: from <= i < k ==> Deletes(tables, faults, sde, names, i)
    ensures k < |names| ==> !Deletes(tables, faults, sde, names, k)
    decreases |names| - from
  {
    if from == |names| then from
    else if !Deletes(tables, faults, sde, names, from) then from
    else FirstBlocked(tables, faults, sde, names, from + 1)
  }

  /** The error of a `Delete` that does not go through: its planned fault, or
      the backend's "does not exist". */
  function DeleteError(faults: map<Call, Error>, path: string): Error {
    if DeleteDataset(path) in faults then faults[DeleteDataset(path)] else DatasetMissing(path)
  }

  /** One `Delete`: the table goes unless the call is planned to fail or the
      table is missing, which raises. */
  method DeleteOne(db: Geodatabase, path: string) returns (db': Geodatabase, r: Outcome<Error>)
    ensures r.Pass? <==> path in db.tables && DeleteDataset(path) !in db.faults
    ensures db' == if r.Pass? then db.(tables := db.tables - {path}).Log(DeleteDataset(path)) else db.Log(DeleteDataset(path))
    ensures r.Fail? ==> r.error == DeleteError(db.faults, path)
  {
    var reply := db.DeleteTable(path);
    db' := reply.db;
    r := if reply.result.Err? then Fail(reply.result.error) else Pass;
  }

  /** What the loop of `delete_tables` knows once the first `n` deletes went
      through: only the tables changed, the calls so far are in the trace and
      exactly the tables they named are gone. */
  predicate DeletedUpTo(db0: Geodatabase, db: Geodatabase, sde: string, names: seq<string>, n: nat)
    requires n <= |names|
  {
    && TablesOnly(db0, db)
    && db.trace == db0.trace + DeleteCalls(sde, names)[..n]
    && db.tables == db0.tables - PathsOf(sde, names, n)
  }

  /** One `Delete` of the loop: the table goes and the call joins the trace,
      unless the call is planned to fail or the table is missing. */
  method DeleteNext(db0: Geodatabase, db: Geodatabase, names: seq<string>, sde: string, i: nat)
    returns (db': Geodatabase, r: Outcome<Error>)
    requires i < |names| && DeletedUpTo(db0, db, sde, names, i)
    ensures r.Pass? <==> Deletes(db0.tables, db0.faults, sde, names, i)
    ensures r.Pass? ==> DeletedUpTo(db0, db', sde, names, i + 1)
    ensures r.Fail? ==> r.error == DeleteError(db0.faults, PathJoin(sde, names[i])) && db' == db.Log(DeleteDataset(PathJoin(sde, names[i])))
  {
    ghost var calls := DeleteCalls(sde, names);
    db', r := DeleteOne(db, PathJoin(sde, names[i]));
    if r.Pass? {
      assert calls[..i + 1] == calls[..i] + [calls[i]];
      PathsOfNext(sde, names, i);
    }
  }

  /** `delete_tables`: one `Delete` per name, in order; nothing is caught, so
      the first failure, a missing table included, ends the step. */
  method DeleteTables(db: Geodatabase, names: seq<string>, sde: string) returns (db': Geodatabase, r: Outcome<Error>)
    ensures TablesOnly(db, db')
    ensures var k := FirstBlocked(db.tables, db.faults, sde, names, 0);
      && (r.Pass? <==> k == |names|)
      && (r.Fail? ==> r.error == DeleteError(db.faults, PathJoin(sde, names[k]))
                      && db'.trace == db.trace + DeleteCalls(sde, names)[..k + 1])
      && (r.Pass? ==> db'.trace == db.trace + DeleteCalls(sde, names))
      && db'.tables == db.tables - PathsOf(sde, names, k)
  {
    ghost var k := FirstBlocked(db.tables, db.faults, sde, names, 0);
    db' := db;
    var i := 0;
    while i < |names|
      invariant 0 <= i <= k
      invariant DeletedUpTo(db, db', sde, names, i)
    {
      var step;
      ghost var before := db';
      db', step := DeleteNext(db, db', names, sde, i);
      if step.Fail? {
        DeleteStopped(db, before, sde, names, i);
        return db', step;
      }
      i := i + 1;
    }
    assert DeleteCalls(sde, names)[..i] == DeleteCalls(sde, names);
    r := Pass;
  }

  /** The loop stops at the first `Delete` that does not go through, with
      that call as the last one made. */
  lemma DeleteStopped(db0: Geodatabase, db: Geodatabase, sde: string, names: seq<string>, i: nat)
    requires i < |names| && DeletedUpTo(db0, db, sde, names, i)
    requires i <= FirstBlocked(db0.tables, db0.faults, sde, names, 0)
    requires !Deletes(db0.tables, db0.faults, sde, names, i)
    ensures FirstBlocked(db0.tables, db0.faults, sde, names, 0) == i
    ensures db.Log(DeleteDataset(PathJoin(sde, names[i]))).trace == db0.trace + DeleteCalls(sde, names)[..i + 1]
  {
    assert DeleteCalls(sde, names)[..i + 1] == DeleteCalls(sde, names)[..i] + [DeleteCalls(sde, names)[i]];
  }

  /** Deleting the tables a second time fails at the first name: once every
      listed table is gone, its `Delete` finds nothing to delete. */
  lemma DeleteTablesAgain(tables: map<string, Table>, faults: map<Call, Error>, sde: string, names: seq<string>)
    requires |names| > 0 && FirstBlocked(tables, faults, sde, names, 0) == |names|
    ensures FirstBlocked(tables - PathsOf(sde, names, |names|), faults, sde, names, 0) == 0
  {
    assert PathJoin(sde, names[0]) in PathsOf(sde, names, |names|);
  }

  // ---------------------------------------------------------------- version_tables

  /** `table_name.split('.')[2]`, the table's own name in an
      `owner.schema.table` qualified name; `None` is the `IndexError` of a
      name with fewer than three parts. */
  function ThirdPart(name: string): (r: Option<string>)
    ensures r.Some? <==> |Split(name, '.')| >= 3
  {
    var parts := Split(name, '.');
    if |parts| < 3 then None else Some(parts[2])
  }

  /** The table is acted on: its third part exists and is not in the skip list. */
  predicate Selected(name: string, skip: seq<string>) {
    ThirdPart(name).Some? && ThirdPart(name).value !in skip
  }

  /** The first call of a table's pair, which opens it. */
  function Opening(version: bool, path: string): Call {
    if version then EnableEditorTracking(path) else UnregisterAsVersioned(path)
  }

  /** The second call of a table's pair. */
  function Closing(version: bool, path: string): Call {
    if version then RegisterAsVersioned(path) else DisableEditorTracking(path)
  }

  /** Versioning on: editor tracking, then registration. Versioning off:
      unregistration, then editor tracking off. */
  function TableCalls(version: bool, path: string): seq<Call> {
    [Opening(version, path), Closing(version, path)]
  }

  /** The calls `version_tables` makes for the first `n` names, in order. */
  function VersionCalls(version: bool, names: seq<string>, skip: seq<string>, sde: string, n: nat): (r: seq<Call>)
    requires n <= |names|
  {
    if n == 0 then []
    else
      VersionCalls(version, names, skip, sde, n - 1)
        + (if Selected(names[n - 1], skip) then TableCalls(version, PathJoin(sde, names[n - 1])) else [])
  }

  /** A selected table is one whose pair of calls is made: the opening call
      for a name's path is made exactly when the name is listed and selected. */
  lemma {:induction false} VersionCallsSelected(version: bool, names: seq<string>, skip: seq<string>, sde: string, n: nat, name: string)
    requires n <= |names|
    ensures (Opening(version, PathJoin(sde, name)) in VersionCalls(version, names, skip, sde, n))
              <==> name in names[..n] && Selected(name, skip)
  {
    if n > 0 {
      assert names[..n] == names[..n - 1] + [names[n - 1]];
      VersionCallsSelected(version, names, skip, sde, n - 1, name);
      var p, q := PathJoin(sde, name), PathJoin(sde, names[n - 1]);
      if Selected(names[n - 1], skip) && Opening(version, p) in TableCalls(version, q) {
        assert Opening(version, p) == Opening(version, q);
        PathJoinInjective(sde, name, names[n - 1]);
      }
    }
  }

  /** One more name extends a trace of the calls for the names before it. */
  lemma VersionCallsNext(t: seq<Call>, version: bool, names: seq<string>, skip: seq<string>, sde: string, i: nat)
    requires i < |names|
    ensures t + VersionCalls(version, names, skip, sde, i + 1)
            == (t + VersionCalls(version, names, skip, sde, i))
               + (if Selected(names[i], skip) then TableCalls(version, PathJoin(sde, names[i])) else [])
  {
  }

  /** `c` is an opening call. */
  predicate IsOpening(version: bool, c: Call) {
    if version then c.EnableEditorTracking? else c.UnregisterAsVersioned?
  }

  /** The calls come in pairs, each pair being the two calls of one table. */
  predicate Paired(version: bool, calls: seq<Call>)
    decreases |calls|
  {
    |calls| == 0
    || (|calls| >= 2 && Paired(version, calls[..|calls| - 2])
        && IsOpening(version, calls[|calls| - 2])
        && calls[|calls| - 1] == Closing(version, calls[|calls| - 2].path))
  }

  lemma {:induction false} VersionCallsPaired(version: bool, names: seq<string>, skip: seq<string>, sde: string, n: nat)
    requires n <= |names|
    ensures Paired(version, VersionCalls(version, names, skip, sde, n))
  {
    if n > 0 {
      var a := VersionCalls(version, names, skip, sde, n - 1);
      VersionCallsPaired(version, names, skip, sde, n - 1);
      if Selected(names[n - 1], skip) {
        var path := PathJoin(sde, names[n - 1]);
        var c := a + TableCalls(version, path);
        assert c == VersionCalls(version, names, skip, sde, n);
        assert c[..|c| - 2] == a;
        assert c[|c| - 2] == Opening(version, path) && c[|c| - 1] == Closing(version, path);
        assert IsOpening(version, Opening(version, path)) && Opening(version, path).path == path;
      } else {
        assert a + [] == a;
      }
    }
  }

  /** In paired calls every opening call is followed at once by the closing
      call for the same table: tracking before registration when versioning,
      unregistration before tracking off when unversioning. */
  lemma {:induction false} PairedOrder(version: bool, calls: seq<Call>, i: nat)
    requires Paired(version, calls) && i < |calls| && IsOpening(version, calls[i])
    ensures i + 1 < |calls| && calls[i + 1] == Closing(version, calls[i].path)
    decreases |calls|
  {
    var m := |calls| - 2;
    if i < m {
      assert calls[..m][i] == calls[i] && calls[..m][i + 1] == calls[i + 1];
      PairedOrder(version, calls[..m], i);
    }
  }

  /** The table is registered as versioned and editor-tracked exactly when
      `version` is on. */
  predicate Done(tables: map<string, Table>, path: string, version: bool) {
    path in tables && tables[path].versioned == version && tables[path].tracked == version
  }

  /** A table after its opening call: editor tracking adds the four tracking
      fields it lacks and turns tracking on; unregistration turns versioning
      off. */
  function Opened(version: bool, t: Table): Table {
    if version then Tracked(t) else t.(versioned := false)
  }

  /** A table after its closing call. */
  function Closed(version: bool, t: Table): Table {
    if version then t.(versioned := true) else t.(tracked := false)
  }

  /** The opening call for one table. */
  method Open(db: Geodatabase, version: bool, path: string) returns (db': Geodatabase, r: Outcome<Error>)
    ensures r.Pass? <==> path in db.tables && Opening(version, path) !in db.faults
    ensures db' == if r.Pass? then db.WithTable(path, Opened(version, db.tables[path])).Log(Opening(version, path))
                   else db.Log(Opening(version, path))
  {
    var reply := if version then db.EnableTracking(path) else db.Unregister(path);
    db' := reply.db;
    r := if reply.result.Err? then Fail(reply.result.error) else Pass;
  }

  /** The closing call for one table. */
  method Close(db: Geodatabase, version: bool, path: string) returns (db': Geodatabase, r: Outcome<Error>)
    ensures r.Pass? <==> path in db.tables && Closing(version, path) !in db.faults
    ensures db' == if r.Pass? then db.WithTable(path, Closed(version, db.tables[path])).Log(Closing(version, path))
                   else db.Log(Closing(version, path))
  {
    var reply := if version then db.Register(path) else db.DisableTracking(path);
    db' := reply.db;
    r := if reply.result.Err? then Fail(reply.result.error) else Pass;
  }

  /** A table after both its calls. */
  function Final(version: bool, t: Table): Table {
    Closed(version, Opened(version, t))
  }

  /** Both calls leave the table versioned and tracked exactly when `version`
      is on, keep its fields and data, add the tracking fields it lacks when
      versioning and nothing when unversioning; a second round changes
      nothing. */
  lemma FinalState(version: bool, t: Table)
    ensures Final(version, t).versioned == version && Final(version, t).tracked == version
    ensures Grown(t, Final(version, t))
    ensures version ==> forall n :: n in TrackingNames ==> HasField(Final(version, t), n)
    ensures !version ==> Final(version, t).fields == t.fields && Final(version, t).rows == t.rows
    ensures Final(version, Final(version, t)) == Final(version, t)
  {
    if version {
      TrackedGrown(t);
      var f := Final(version, t);
      assert FieldNames(f) == FieldNames(Tracked(t));
      TrackedAgain(f);
    }
  }

  /** The two calls for one table; either may raise, and nothing is caught. */
  method VersionOne(db: Geodatabase, version: bool, path: string) returns (db': Geodatabase, r: Outcome<Error>)
    ensures TablesOnly(db, db') && db'.tables.Keys == db.tables.Keys
    ensures db'.tables - {path} == db.tables - {path}
    ensures r.Pass? <==> path in db.tables && Opening(version, path) !in db.faults && Closing(version, path) !in db.faults
    ensures r.Pass? ==> db'.trace == db.trace + TableCalls(version, path)
    ensures r.Pass? ==> db'.tables == db.tables[path := Final(version, db.tables[path])]
    // a failing closing call leaves the table as the opening call made it
    ensures r.Fail? ==> db'.tables == db.tables
                        || (path in db.tables && db'.tables == db.tables[path := Opened(version, db.tables[path])])
  {
    db', r := Open(db, version, path);
    if r.Fail? {
      return;
    }
    db', r := Close(db', version, path);
  }

  lemma OthersKept(a: map<string, Table>, b: map<string, Table>, path: string)
    requires a.Keys == b.Keys && a - {path} == b - {path}
    ensures forall p :: p != path && p in a ==> b[p] == a[p]
  {
    forall p | p != path && p in a
      ensures b[p] == a[p]
    {
      assert (a - {path})[p] == (b - {path})[p];
    }
  }

  /** Both calls for the table would go through. */
  predicate Ready(db: Geodatabase, version: bool, path: string) {
    path in db.tables && Opening(version, path) !in db.faults && Closing(version, path) !in db.faults
  }

  /** The first `n` names have three parts, and the selected ones are ready. */
  predicate AllReady(db: Geodatabase, version: bool, names: seq<string>, skip: seq<string>, sde: string, n: nat)
    requires n <= |names|
  {
    && (forall i :: 0 <= i < n ==> ThirdPart(names[i]).Some?)
    && (forall i :: 0 <= i < n && Selected(names[i], skip) ==> Ready(db, version, PathJoin(sde, names[i])))
  }

  /** Every table selected among the first `n` names is as both its calls
      leave the table it was at `start`. */
  predicate AllFinal(start: map<string, Table>, tables: map<string, Table>, version: bool,
                     names: seq<string>, skip: seq<string>, sde: string, n: nat)
    requires n <= |names|
  {
    forall i :: 0 <= i < n && Selected(names[i], skip) ==>
      && PathJoin(sde, names[i]) in start && PathJoin(sde, names[i]) in tables
      && tables[PathJoin(sde, names[i])] == Final(version, start[PathJoin(sde, names[i])])
  }

  /** Every table selected among the first `n` names is registered and
      tracked exactly when `version` is on. */
  predicate AllDone(tables: map<string, Table>, version: bool, names: seq<string>, skip: seq<string>, sde: string, n: nat)
    requires n <= |names|
  {
    forall i :: 0 <= i < n && Selected(names[i], skip) ==> Done(tables, PathJoin(sde, names[i]), version)
  }

  /** The path is not that of a table selected among the first `n` names. */
  predicate Unselected(p: string, names: seq<string>, skip: seq<string>, sde: string, n: nat)
    requires n <= |names|
  {
    forall i :: 0 <= i < n && Selected(names[i], skip) ==> p != PathJoin(sde, names[i])
  }

  /** The tables no selected name stands for are as they were. */
  predicate Untouched(before: map<string, Table>, after: map<string, Table>, names: seq<string>, skip: seq<string>, sde: string, n: nat)
    requires n <= |names|
  {
    forall p :: p in before && Unselected(p, names, skip, sde, n) ==> p in after && after[p] == before[p]
  }

  lemma UntouchedWider(before: map<string, Table>, after: map<string, Table>, names: seq<string>, skip: seq<string>, sde: string, n: nat, m: nat)
    requires n <= m <= |names| && Untouched(before, after, names, skip, sde, n)
    ensures Untouched(before, after, names, skip, sde, m)
  {
  }

  lemma AllReadyNarrower(db: Geodatabase, version: bool, names: seq<string>, skip: seq<string>, sde: string, n: nat, m: nat)
    requires n <= m <= |names| && AllReady(db, version, names, skip, sde, m)
    ensures AllReady(db, version, names, skip, sde, n)
  {
  }

  /** One name of the loop: what the loop knows before it holds after it for
      one more name, or the step fails and the names so far are not all
      ready. */
  method VersionName(db0: Geodatabase, db: Geodatabase, version: bool, names: seq<string>, skip: seq<string>, sde: string, i: nat)
    returns (db': Geodatabase, r: Outcome<Error>)
    requires i < |names| && VersionedUpTo(db0, db, version, names, skip, sde, i)
    ensures TablesOnly(db0, db') && db'.tables.Keys == db0.tables.Keys
    ensures Untouched(db0.tables, db'.tables, names, skip, sde, i + 1)
    ensures r.Pass? <==> AllReady(db0, version, names, skip, sde, i + 1)
    ensures r.Pass? ==> VersionedUpTo(db0, db', version, names, skip, sde, i + 1)
  {
    VersionCallsNext(db0.trace, version, names, skip, sde, i);
    var part := ThirdPart(names[i]);
    if part.None? {
      return db, Fail(OtherError(Contingency.IndexErrorMessage));
    }
    if part.value in skip {
      assert db.trace + [] == db.trace;
      return db, Pass;
    }
    var path := PathJoin(sde, names[i]);
    db', r := VersionOne(db, version, path);
    OthersKept(db.tables, db'.tables, path);
    AllReadyNext(db0, version, names, skip, sde, i);
    UntouchedNext(db0.tables, db.tables, db'.tables, names, skip, sde, i);
    if r.Pass? {
      FinalState(version, db0.tables[path]);
      AllFinalNext(db0.tables, db.tables, db'.tables, version, names, skip, sde, i);
    }
  }

  /** A selected name adds its own table's readiness to the names before it. */
  lemma AllReadyNext(db: Geodatabase, version: bool, names: seq<string>, skip: seq<string>, sde: string, i: nat)
    requires i < |names| && AllReady(db, version, names, skip, sde, i) && Selected(names[i], skip)
    ensures AllReady(db, version, names, skip, sde, i + 1) <==> Ready(db, version, PathJoin(sde, names[i]))
  {
  }

  /** Both calls on one selected table keep what the names before it
      established: a table met before is left as it was, since a second
      round changes nothing. */
  lemma AllFinalNext(start: map<string, Table>, before: map<string, Table>, after: map<string, Table>, version: bool,
                     names: seq<string>, skip: seq<string>, sde: string, i: nat)
    requires i < |names| && Selected(names[i], skip)
    requires AllFinal(start, before, version, names, skip, sde, i) && Untouched(start, before, names, skip, sde, i)
    requires var path := PathJoin(sde, names[i]);
      && path in start && path in before && path in after
      && after[path] == Final(version, before[path])
      && Final(version, Final(version, start[path])) == Final(version, start[path])
      && forall p :: p != path && p in before ==> p in after && after[p] == before[p]
    ensures AllFinal(start, after, version, names, skip, sde, i + 1)
  {
    var path := PathJoin(sde, names[i]);
    if !Unselected(path, names, skip, sde, i) {
      var j :| 0 <= j < i && Selected(names[j], skip) && path == PathJoin(sde, names[j]);
      assert before[path] == Final(version, start[path]);
    }
  }

  /** Tables in their final state are registered and tracked as asked. */
  lemma AllFinalDone(start: map<string, Table>, tables: map<string, Table>, version: bool,
                     names: seq<string>, skip: seq<string>, sde: string, n: nat)
    requires n <= |names| && AllFinal(start, tables, version, names, skip, sde, n)
    ensures AllDone(tables, version, names, skip, sde, n)
  {
    forall i | 0 <= i < n && Selected(names[i], skip)
      ensures Done(tables, PathJoin(sde, names[i]), version)
    {
      FinalState(version, start[PathJoin(sde, names[i])]);
    }
  }

  /** Final states reached from a part of the tables are final states of the
      whole. */
  lemma AllFinalFrom(whole: map<string, Table>, part: map<string, Table>, tables: map<string, Table>, version: bool,
                     names: seq<string>, skip: seq<string>, sde: string, n: nat)
    requires n <= |names| && AllFinal(part, tables, version, names, skip, sde, n)
    requires forall p :: p in part ==> p in whole && whole[p] == part[p]
    ensures AllFinal(whole, tables, version, names, skip, sde, n)
  {
  }

  /** Changing only a selected name's table keeps the others untouched. */
  lemma UntouchedNext(start: map<string, Table>, before: map<string, Table>, after: map<string, Table>,
                      names: seq<string>, skip: seq<string>, sde: string, i: nat)
    requires i < |names| && Untouched(start, before, names, skip, sde, i) && Selected(names[i], skip)
    requires var path := PathJoin(sde, names[i]);
      forall p :: p != path && p in before ==> p in after && after[p] == before[p]
    ensures Untouched(start, after, names, skip, sde, i + 1)
  {
  }

  /** What the loop of `version_tables` knows after the first `n` names:
      only the tables changed, every name so far was ready, each selected
      table is in its final state, the others are untouched, and the trace
      holds the pairs so far. */
  predicate VersionedUpTo(db0: Geodatabase, db: Geodatabase, version: bool, names: seq<string>, skip: seq<string>, sde: string, n: nat)
    requires n <= |names|
  {
    && TablesOnly(db0, db) && db.tables.Keys == db0.tables.Keys
    && AllReady(db0, version, names, skip, sde, n) && AllFinal(db0.tables, db.tables, version, names, skip, sde, n)
    && Untouched(db0.tables, db.tables, names, skip, sde, n)
    && db.trace == db0.trace + VersionCalls(version, names, skip, sde, n)
  }

  /** `version_tables(version, tables, skip_tables, sde)`: for each name in
      order, a name with fewer than three dot-separated parts raises
      `IndexError`; a name whose third part is in the skip list is passed
      over; any other table gets its two calls. Nothing is caught. */
  method VersionTables(db: Geodatabase, version: bool, names: seq<string>, skip: seq<string>, sde: string)
    returns (db': Geodatabase, r: Outcome<Error>)
    ensures TablesOnly(db, db') && db'.tables.Keys == db.tables.Keys
    ensures r.Pass? <==> AllReady(db, version, names, skip, sde, |names|)
    ensures r.Pass? ==> db'.trace == db.trace + VersionCalls(version, names, skip, sde, |names|)
    // each selected table ends as its two calls leave it, and each one
    // that no selected name stands for is left as it was
    ensures r.Pass? ==> AllFinal(db.tables, db'.tables, version, names, skip, sde, |names|)
    ensures Untouched(db.tables, db'.tables, names, skip, sde, |names|)
  {
    db' := db;
    var i := 0;
    while i < |names|
      invariant 0 <= i <= |names| && VersionedUpTo(db, db', version, names, skip, sde, i)
    {
      var step;
      db', step := VersionName(db, db', version, names, skip, sde, i);
      UntouchedWider(db.tables, db'.tables, names, skip, sde, i + 1, |names|);
      if step.Fail? {
        if AllReady(db, version, names, skip, sde, |names|) {
          AllReadyNarrower(db, version, names, skip, sde, i + 1, |names|);
        }
        return db', step;
      }
      i := i + 1;
    }
    r := Pass;
  }

  // ---------------------------------------------------------------- modify_tables

  /** What `modify_tables` reports for one table: all its changes applied, or
      a tool error it caught, told apart by the "already upgraded" code. */
  datatype TableReport = Modified | AlreadyUpgraded(error: Error) | Abandoned(error: Error)

  /** A report that says what it caught: a caught error is a tool error, and
      it counts as "already upgraded" exactly when it carries that code. */
  predicate Reported(rep: TableReport) {
    rep.Modified? || (rep.error.ExecuteError? && (rep.AlreadyUpgraded? <==> FieldAlreadyUpgraded(rep.error.message)))
  }

  /** The error either comes from the backend's own checks, which raise tool
      errors only, or is one of the planned faults. */
  predicate Raised(e: Error, faults: map<Call, Error>) {
    e.ExecuteError? || e in faults.Values
  }

  /** Every planned fault is a tool error. */
  predicate ToolFaultsOnly(faults: map<Call, Error>) {
    forall c :: c in faults ==> faults[c].ExecuteError?
  }

  /** The drop of a table change, when it has fields to drop. */
  function DeleteCall(sde: string, ch: TableChange): (r: seq<Call>)
    ensures |r| <= 1
  {
    if |ch.deletes| > 0 then [DeleteField(PathJoin(sde, ch.table), ch.deletes)] else []
  }

  function AddCalls(sde: string, adds: seq<FieldAdd>): (r: seq<Call>)
    ensures |r| == |adds|
    ensures forall i :: 0 <= i < |adds| ==> r[i] == AddField(PathJoin(sde, adds[i].inTable), adds[i].def.name)
  {
    seq(|adds|, i requires 0 <= i < |adds| => AddField(PathJoin(sde, adds[i].inTable), adds[i].def.name))
  }

  /** The calls for one table change when none fails: the drop first, then one
      `AddField` per add, in order. */
  function ChangeCalls(sde: string, ch: TableChange): seq<Call> {
    DeleteCall(sde, ch) + AddCalls(sde, ch.adds)
  }

  /** The path and field name of each of the first `n` adds. */
  function AddedFields(sde: string, adds: seq<FieldAdd>, n: nat): set<(string, string)>
    requires n <= |adds|
  {
    set j | 0 <= j < n :: (PathJoin(sde, adds[j].inTable), adds[j].def.name)
  }

  predicate Has(tables: map<string, Table>, path: string, name: string) {
    path in tables && HasField(tables[path], name)
  }

  predicate Lacks(tables: map<string, Table>, path: string, name: string) {
    path in tables && !HasField(tables[path], name)
  }

  /** The drop of one table change. */
  method DeleteStep(db: Geodatabase, sde: string, ch: TableChange) returns (db': Geodatabase, r: Outcome<Error>)
    ensures var path, c := PathJoin(sde, ch.table), DeleteField(PathJoin(sde, ch.table), ch.deletes);
      && (r.Pass? <==> |ch.deletes| == 0 || (path in db.tables && FirstMissing(db.tables[path], ch.deletes).None? && c !in db.faults))
      && db' == if |ch.deletes| == 0 then db
                else if r.Pass? then db.WithTable(path, DropColumns(db.tables[path], ch.deletes)).Log(c)
                else db.Log(c)
    ensures r.Fail? ==> Raised(r.error, db.faults)
  {
    if |ch.deletes| == 0 {
      return db, Pass;
    }
    var reply := db.DeleteFields(PathJoin(sde, ch.table), ch.deletes);
    db' := reply.db;
    r := if reply.result.Err? then Fail(reply.result.error) else Pass;
  }

  /** One add of a table change. */
  method AddStep(db: Geodatabase, sde: string, add: FieldAdd) returns (db': Geodatabase, r: Outcome<Error>)
    ensures var path, c := PathJoin(sde, add.inTable), AddField(PathJoin(sde, add.inTable), add.def.name);
      && (r.Pass? <==> Lacks(db.tables, path, add.def.name) && c !in db.faults)
      && db' == if r.Pass? then db.WithTable(path, AddColumn(db.tables[path], add.def)).Log(c) else db.Log(c)
    ensures r.Fail? ==> Raised(r.error, db.faults)
  {
    var reply := db.NewField(PathJoin(sde, add.inTable), add.def);
    db' := reply.db;
    r := if reply.result.Err? then Fail(reply.result.error) else Pass;
  }

  /** The paths of the first `n` adds. */
  function AddPaths(sde: string, adds: seq<FieldAdd>, n: nat): set<string>
    requires n <= |adds|
  {
    set j | 0 <= j < n :: PathJoin(sde, adds[j].inTable)
  }

  /** The tables after one add that is not planned to fail: the field joins
      its table when the table exists and lacks it; otherwise the backend
      refuses the add and nothing changes. */
  function AddTo(tables: map<string, Table>, path: string, def: FieldDef): map<string, Table> {
    if path in tables && !HasField(tables[path], def.name) then tables[path := AddColumn(tables[path], def)] else tables
  }

  /** The tables after the first `n` adds, none of them planned to fail. */
  function AddsApplied(tables: map<string, Table>, sde: string, adds: seq<FieldAdd>, n: nat): (after: map<string, Table>)
    requires n <= |adds|
  {
    if n == 0 then tables
    else AddTo(AddsApplied(tables, sde, adds, n - 1), PathJoin(sde, adds[n - 1].inTable), adds[n - 1].def)
  }

  /** After the adds, no table has appeared or gone, and a table has a field
      exactly when it had it before or an add names it. */
  lemma {:induction false} AddsAppliedFields(tables: map<string, Table>, sde: string, adds: seq<FieldAdd>, n: nat, p: string, name: string)
    requires n <= |adds|
    ensures p in AddsApplied(tables, sde, adds, n) <==> p in tables
    ensures Has(AddsApplied(tables, sde, adds, n), p, name)
            <==> Has(tables, p, name) || (p in tables && (p, name) in AddedFields(sde, adds, n))
  {
    if n > 0 {
      AddsAppliedFields(tables, sde, adds, n - 1, p, name);
      var before := AddsApplied(tables, sde, adds, n - 1);
      var q, def := PathJoin(sde, adds[n - 1].inTable), adds[n - 1].def;
      assert AddedFields(sde, adds, n) == AddedFields(sde, adds, n - 1) + {(q, def.name)};
      if p == q && p in before && !HasField(before[p], def.name) {
        AddColumnHasField(before[p], def, name);
      }
    }
  }

  /** The adds keep every table's fields and data, and leave alone every
      table none of them names. */
  lemma {:induction false} AddsAppliedKeeps(tables: map<string, Table>, sde: string, adds: seq<FieldAdd>, n: nat, p: string)
    requires n <= |adds| && p in tables
    ensures p in AddsApplied(tables, sde, adds, n)
    ensures Grown(tables[p], AddsApplied(tables, sde, adds, n)[p])
    ensures p !in AddPaths(sde, adds, n) ==> AddsApplied(tables, sde, adds, n)[p] == tables[p]
  {
    if n > 0 {
      AddsAppliedKeeps(tables, sde, adds, n - 1, p);
      var before := AddsApplied(tables, sde, adds, n - 1);
      var q, def := PathJoin(sde, adds[n - 1].inTable), adds[n - 1].def;
      assert AddPaths(sde, adds, n) == AddPaths(sde, adds, n - 1) + {q};
      if p == q && !HasField(before[p], def.name) {
        AddColumnGrown(before[p], def);
        GrownTrans(tables[p], before[p], AddColumn(before[p], def));
      }
    }
  }

  /** An add whose table lacked its field until then leaves the field with
      the add's definition, whatever the later adds do. */
  lemma {:induction false} AddsAppliedDef(tables: map<string, Table>, sde: string, adds: seq<FieldAdd>, n: nat, j: nat)
    requires j < n <= |adds|
    requires var p := PathJoin(sde, adds[j].inTable);
      Lacks(tables, p, adds[j].def.name) && (p, adds[j].def.name) !in AddedFields(sde, adds, j)
    ensures PathJoin(sde, adds[j].inTable) in AddsApplied(tables, sde, adds, n)
    ensures adds[j].def in AddsApplied(tables, sde, adds, n)[PathJoin(sde, adds[j].inTable)].fields
  {
    var p, def := PathJoin(sde, adds[j].inTable), adds[j].def;
    AddsAppliedKeeps(tables, sde, adds, n, p);
    var after := AddsApplied(tables, sde, adds, n);
    if n == j + 1 {
      var before := AddsApplied(tables, sde, adds, j);
      AddsAppliedFields(tables, sde, adds, j, p, def.name);
      assert after[p].fields == before[p].fields + [def];
      assert after[p].fields[|before[p].fields|] == def;
    } else {
      AddsAppliedDef(tables, sde, adds, n - 1, j);
      var before := AddsApplied(tables, sde, adds, n - 1);
      AddsAppliedKeeps(tables, sde, adds, n - 1, p);
      assert before[p].fields <= after[p].fields;
    }
  }

  /** What the loop over the adds knows once the first `n` went through: only
      the tables changed, the calls so far are in the trace, the tables are
      those the adds make, and each add's table existed. */
  predicate AddedUpTo(db0: Geodatabase, db: Geodatabase, sde: string, adds: seq<FieldAdd>, n: nat)
    requires n <= |adds|
  {
    && TablesOnly(db0, db) && db.tables.Keys == db0.tables.Keys
    && db.trace == db0.trace + AddCalls(sde, adds)[..n]
    && db.tables == AddsApplied(db0.tables, sde, adds, n)
    && forall j :: 0 <= j < n ==> PathJoin(sde, adds[j].inTable) in db0.tables
  }

  /** One add of the loop: the add goes through and the loop's knowledge
      holds for one more, or it raises and only its call joins the trace. */
  method AddNext(db0: Geodatabase, db: Geodatabase, sde: string, adds: seq<FieldAdd>, i: nat)
    returns (db': Geodatabase, r: Outcome<Error>)
    requires i < |adds| && AddedUpTo(db0, db, sde, adds, i)
    ensures r.Pass? ==> AddedUpTo(db0, db', sde, adds, i + 1)
    ensures r.Fail? ==> Raised(r.error, db0.faults) && AddsStopped(db0, db', sde, adds, i + 1)
  {
    ghost var calls := AddCalls(sde, adds);
    db', r := AddStep(db, sde, adds[i]);
    assert calls[..i + 1] == calls[..i] + [calls[i]];
  }

  /** The loop over the adds: it ends after all of them, knowing what the
      loop knows, or after the first that raised, with only that add's call
      on top of the ones before. */
  method AddLoop(db: Geodatabase, sde: string, adds: seq<FieldAdd>) returns (db': Geodatabase, r: Outcome<Error>, ghost k: nat)
    ensures k <= |adds|
    ensures r.Pass? ==> k == |adds| && AddedUpTo(db, db', sde, adds, k)
    ensures r.Fail? ==> 0 < k && Raised(r.error, db.faults) && AddsStopped(db, db', sde, adds, k)
  {
    db' := db;
    r := Pass;
    var i := 0;
    while i < |adds|
      invariant 0 <= i <= |adds| && r.Pass?
      invariant AddedUpTo(db, db', sde, adds, i)
    {
      db', r := AddNext(db, db', sde, adds, i);
      if r.Fail? {
        return db', r, i + 1;
      }
      i := i + 1;
    }
    k := i;
  }

  /** What holds once the `k`-th add raised: the calls up to it are in the
      trace and the tables are as the adds before it made them. */
  predicate AddsStopped(db0: Geodatabase, db: Geodatabase, sde: string, adds: seq<FieldAdd>, k: nat)
    requires 0 < k <= |adds|
  {
    && TablesOnly(db0, db) && db.tables.Keys == db0.tables.Keys
    && db.trace == db0.trace + AddCalls(sde, adds)[..k]
    && db.tables == AddsApplied(db0.tables, sde, adds, k - 1)
  }

  /** The adds of one table change, in order; the first failure ends them.
      `k` counts the adds attempted. */
  method AddAll(db: Geodatabase, sde: string, adds: seq<FieldAdd>) returns (db': Geodatabase, r: Outcome<Error>, ghost k: nat)
    ensures TablesOnly(db, db') && db'.tables.Keys == db.tables.Keys
    ensures k <= |adds| && db'.trace == db.trace + AddCalls(sde, adds)[..k]
    ensures r.Pass? ==> k == |adds|
    ensures r.Fail? ==> k > 0 && Raised(r.error, db.faults)
    // the tables are as the adds that went through make them
    ensures db'.tables == AddsApplied(db.tables, sde, adds, if r.Pass? then k else k - 1)
    // every add took effect
    ensures r.Pass? ==> forall j :: 0 <= j < |adds| ==> Has(db'.tables, PathJoin(sde, adds[j].inTable), adds[j].def.name)
  {
    db', r, k := AddLoop(db, sde, adds);
    if r.Pass? {
      AddsAppliedHasAll(db.tables, sde, adds);
    }
  }

  /** When every add's table exists, every added field is there afterwards. */
  lemma AddsAppliedHasAll(tables: map<string, Table>, sde: string, adds: seq<FieldAdd>)
    requires forall j :: 0 <= j < |adds| ==> PathJoin(sde, adds[j].inTable) in tables
    ensures forall j :: 0 <= j < |adds| ==> Has(AddsApplied(tables, sde, adds, |adds|), PathJoin(sde, adds[j].inTable), adds[j].def.name)
  {
    forall j | 0 <= j < |adds|
      ensures Has(AddsApplied(tables, sde, adds, |adds|), PathJoin(sde, adds[j].inTable), adds[j].def.name)
    {
      AddsAppliedFields(tables, sde, adds, |adds|, PathJoin(sde, adds[j].inTable), adds[j].def.name);
    }
  }

  /** What `modify_tables` makes of an exception: a tool error is caught and
      reported, anything else propagates. */
  function Caught(e: Error): (r: Result<TableReport, Error>)
    ensures r.Ok? <==> e.ExecuteError?
    ensures r.Ok? ==> Reported(r.value) && !r.value.Modified? && r.value.error == e
    ensures r.Err? ==> r.error == e
  {
    if e.OtherError? then Err(e)
    else if FieldAlreadyUpgraded(e.message) then Ok(AlreadyUpgraded(e))
    else Ok(Abandoned(e))
  }

  /** The tables after a table change's drop, when it goes through. */
  function Dropped(tables: map<string, Table>, sde: string, ch: TableChange): map<string, Table> {
    var path := PathJoin(sde, ch.table);
    if |ch.deletes| > 0 && path in tables then tables[path := DropColumns(tables[path], ch.deletes)] else tables
  }

  /** The tables after a whole table change when nothing in it fails: the
      drop, then the adds. */
  function Changed(tables: map<string, Table>, sde: string, ch: TableChange): map<string, Table> {
    AddsApplied(Dropped(tables, sde, ch), sde, ch.adds, |ch.adds|)
  }

  /** The tables a change names: its own and those of its adds. */
  function ChangePaths(sde: string, ch: TableChange): set<string> {
    {PathJoin(sde, ch.table)} + AddPaths(sde, ch.adds, |ch.adds|)
  }

  /** After a change, a table has a field exactly when it had it and the
      change does not drop it, or one of the change's adds names it. */
  lemma ChangedFields(tables: map<string, Table>, sde: string, ch: TableChange, p: string, name: string)
    requires p in tables
    ensures p in Changed(tables, sde, ch)
    ensures Has(Changed(tables, sde, ch), p, name)
            <==> (HasField(tables[p], name) && !(p == PathJoin(sde, ch.table) && name in ch.deletes))
                 || (p, name) in AddedFields(sde, ch.adds, |ch.adds|)
  {
    AddsAppliedFields(Dropped(tables, sde, ch), sde, ch.adds, |ch.adds|, p, name);
    if p == PathJoin(sde, ch.table) && |ch.deletes| > 0 {
      DropColumnsHasField(tables[p], ch.deletes, name);
    }
  }

  /** A change keeps every row of every table, and each field it does not
      drop keeps its value in every row. */
  lemma ChangedRows(tables: map<string, Table>, sde: string, ch: TableChange, p: string, f: string, i: nat)
    requires p in tables && i < |tables[p].rows|
    requires HasField(tables[p], f) && !(p == PathJoin(sde, ch.table) && f in ch.deletes)
    ensures p in Changed(tables, sde, ch) && |Changed(tables, sde, ch)[p].rows| == |tables[p].rows|
    ensures Get(Changed(tables, sde, ch)[p].rows[i], f) == Get(tables[p].rows[i], f)
  {
    var dropped := Dropped(tables, sde, ch);
    if p == PathJoin(sde, ch.table) && |ch.deletes| > 0 {
      DropColumnsHasField(tables[p], ch.deletes, f);
      assert Get(dropped[p].rows[i], f) == Get(tables[p].rows[i], f);
    }
    AddsAppliedKeeps(dropped, sde, ch.adds, |ch.adds|, p);
  }

  /** Adds that went through are a prefix of all the adds: a table none of
      them names is left alone. */
  lemma AddsAppliedOutside(tables: map<string, Table>, sde: string, adds: seq<FieldAdd>, n: nat)
    requires n <= |adds|
    ensures forall p :: p in tables && p !in AddPaths(sde, adds, |adds|) ==>
      p in AddsApplied(tables, sde, adds, n) && AddsApplied(tables, sde, adds, n)[p] == tables[p]
  {
    forall p | p in tables && p !in AddPaths(sde, adds, |adds|)
      ensures p in AddsApplied(tables, sde, adds, n) && AddsApplied(tables, sde, adds, n)[p] == tables[p]
    {
      AddsAppliedKeeps(tables, sde, adds, n, p);
    }
  }

  /** One table of `modify_tables`: drop the listed fields if any, then add
      the new ones; a tool error stops the table's changes and is reported. */
  method ModifyTable(db: Geodatabase, sde: string, ch: TableChange) returns (db': Geodatabase, r: Result<TableReport, Error>)
    ensures TablesOnly(db, db') && db'.tables.Keys == db.tables.Keys
    // the calls made are the first of the table's calls, at least one of them
    ensures db.trace <= db'.trace && db'.trace[|db.trace|..] <= ChangeCalls(sde, ch)
    ensures |ChangeCalls(sde, ch)| > 0 ==> |db.trace| < |db'.trace|
    ensures r.Err? ==> r.error.OtherError? && r.error in db.faults.Values
    ensures r.Ok? ==> Reported(r.value)
    // only the tables the change names can change
    ensures forall p :: p in db.tables && p !in ChangePaths(sde, ch) ==> db'.tables[p] == db.tables[p]
    // when nothing failed, every call was made, every add took effect, and
    // the tables are as the change makes them
    ensures r == Ok(Modified) ==>
      && db'.trace == db.trace + ChangeCalls(sde, ch)
      && (forall j :: 0 <= j < |ch.adds| ==> Has(db'.tables, PathJoin(sde, ch.adds[j].inTable), ch.adds[j].def.name))
      && db'.tables == Changed(db.tables, sde, ch)
  {
    var deleted;
    db', deleted := DeleteStep(db, sde, ch);
    if deleted.Fail? {
      assert db'.trace[|db.trace|..] == DeleteCall(sde, ch);
      return db', Caught(deleted.error);
    }
    db', r := AddsAfterDrop(db, db', sde, ch);
  }

  /** The adds of a table change whose drop went through. */
  method AddsAfterDrop(db: Geodatabase, mid: Geodatabase, sde: string, ch: TableChange) returns (db': Geodatabase, r: Result<TableReport, Error>)
    requires TablesOnly(db, mid) && mid.trace == db.trace + DeleteCall(sde, ch)
    requires mid.tables == Dropped(db.tables, sde, ch)
    ensures TablesOnly(db, db') && db'.tables.Keys == db.tables.Keys
    // the calls made are the first of the table's calls, at least one of them
    ensures db.trace <= db'.trace && db'.trace[|db.trace|..] <= ChangeCalls(sde, ch)
    ensures |ChangeCalls(sde, ch)| > 0 ==> |db.trace| < |db'.trace|
    ensures r.Err? ==> r.error.OtherError? && r.error in db.faults.Values
    ensures r.Ok? ==> Reported(r.value)
    // only the tables the change names can change
    ensures forall p :: p in db.tables && p !in ChangePaths(sde, ch) ==> db'.tables[p] == db.tables[p]
    // when nothing failed, every call was made, every add took effect, and
    // the tables are as the change makes them
    ensures r == Ok(Modified) ==>
      && db'.trace == db.trace + ChangeCalls(sde, ch)
      && (forall j :: 0 <= j < |ch.adds| ==> Has(db'.tables, PathJoin(sde, ch.adds[j].inTable), ch.adds[j].def.name))
      && db'.tables == Changed(db.tables, sde, ch)
  {
    var added;
    ghost var k;
    db', added, k := AddAll(mid, sde, ch.adds);
    ChangeMade(db.tables, mid.tables, db'.tables, sde, ch, if added.Pass? then k else k - 1);
    MadeCalls(db.trace, db'.trace, DeleteCall(sde, ch), AddCalls(sde, ch.adds), k);
    r := if added.Fail? then Caught(added.error) else Ok(Modified);
  }

  /** The calls of a table change that stopped after `k` adds are a prefix
      of all its calls, and are all of them when `k` counts every add. */
  lemma MadeCalls(t: seq<Call>, t': seq<Call>, drop: seq<Call>, adds: seq<Call>, k: nat)
    requires k <= |adds| && t' == t + drop + adds[..k]
    ensures t <= t' && t'[|t|..] <= drop + adds
    ensures k == |adds| ==> t' == t + (drop + adds)
  {
    assert t' == t + (drop + adds[..k]);
    assert adds == adds[..k] + adds[k..];
  }

  /** The tables after a drop and some of the adds differ from the start
      only at the tables the change names, and are the changed tables once
      every add went through. */
  lemma ChangeMade(before: map<string, Table>, mid: map<string, Table>, after: map<string, Table>,
                   sde: string, ch: TableChange, n: nat)
    requires n <= |ch.adds| && mid == Dropped(before, sde, ch) && after == AddsApplied(mid, sde, ch.adds, n)
    ensures forall p :: p in before && p !in ChangePaths(sde, ch) ==> p in after && after[p] == before[p]
    ensures n == |ch.adds| ==> after == Changed(before, sde, ch)
  {
    AddsAppliedOutside(mid, sde, ch.adds, n);
  }

  /** The first `i` table changes with any calls each had their first call
      made after `start`. */
  predicate Attempted(trace: seq<Call>, start: nat, sde: string, changes: seq<TableChange>, i: nat)
    requires start <= |trace| && i <= |changes|
  {
    forall j :: 0 <= j < i && |ChangeCalls(sde, changes[j])| > 0 ==> ChangeCalls(sde, changes[j])[0] in trace[start..]
  }

  /** A longer trace keeps what a shorter one made; the next change's first
      call, made right after the shorter trace, joins it. */
  lemma AttemptedNext(t: seq<Call>, t': seq<Call>, start: nat, sde: string, changes: seq<TableChange>, i: nat)
    requires start <= |t| && i < |changes| && Attempted(t, start, sde, changes, i)
    requires t <= t' && t'[|t|..] <= ChangeCalls(sde, changes[i])
    requires |ChangeCalls(sde, changes[i])| > 0 ==> |t| < |t'|
    ensures Attempted(t', start, sde, changes, i + 1)
  {
    forall j | 0 <= j < i + 1 && |ChangeCalls(sde, changes[j])| > 0
      ensures ChangeCalls(sde, changes[j])[0] in t'[start..]
    {
      if j < i {
        var m :| start <= m < |t| && t[m] == ChangeCalls(sde, changes[j])[0];
        assert t'[start..][m - start] == t[m];
      } else {
        assert t'[|t|..][0] == t'[|t|];
        assert t'[start..][|t| - start] == t'[|t|];
      }
    }
  }

  /** The tables the first `n` changes name. */
  function ChangesPaths(sde: string, changes: seq<TableChange>, n: nat): set<string>
    requires n <= |changes|
  {
    if n == 0 then {} else ChangesPaths(sde, changes, n - 1) + ChangePaths(sde, changes[n - 1])
  }

  lemma {:induction false} ChangesPathsHas(sde: string, changes: seq<TableChange>, n: nat, i: nat)
    requires i < n <= |changes|
    ensures ChangePaths(sde, changes[i]) <= ChangesPaths(sde, changes, n)
  {
    if i < n - 1 {
      ChangesPathsHas(sde, changes, n - 1, i);
    }
  }

  /** Only the tables changed, and only those the changes name. */
  predicate ChangesFramed(db0: Geodatabase, db: Geodatabase, sde: string, changes: seq<TableChange>) {
    && TablesOnly(db0, db) && db.tables.Keys == db0.tables.Keys
    && forall p :: p in db0.tables && p !in ChangesPaths(sde, changes, |changes|) ==> db.tables[p] == db0.tables[p]
  }

  /** What the loop over the table changes knows after `i` of them. */
  predicate ModifiedUpTo(db0: Geodatabase, db: Geodatabase, sde: string, changes: seq<TableChange>, reports: seq<TableReport>, i: nat)
    requires i <= |changes|
  {
    && ChangesFramed(db0, db, sde, changes)
    && |reports| == i && (forall j :: 0 <= j < i ==> Reported(reports[j]))
    && Attempted(db.trace, |db0.trace|, sde, changes, i)
  }

  /** One table of the loop. */
  method ModifyNext(db0: Geodatabase, db: Geodatabase, sde: string, changes: seq<TableChange>, reports: seq<TableReport>, i: nat)
    returns (db': Geodatabase, report: Result<TableReport, Error>)
    requires i < |changes| && ModifiedUpTo(db0, db, sde, changes, reports, i)
    ensures ChangesFramed(db0, db', sde, changes)
    ensures report.Err? ==> report.error.OtherError? && report.error in db0.faults.Values
    ensures report.Ok? ==> ModifiedUpTo(db0, db', sde, changes, reports + [report.value], i + 1)
  {
    db', report := ModifyTable(db, sde, changes[i]);
    ChangesPathsHas(sde, changes, |changes|, i);
    if report.Ok? {
      AttemptedNext(db.trace, db'.trace, |db0.trace|, sde, changes, i);
    }
  }

  /** `modify_tables`: each table in order; a tool error is caught and
      reported and the next table goes ahead, anything else ends the step. */
  method ModifyTables(db: Geodatabase, sde: string, changes: seq<TableChange>) returns (db': Geodatabase, r: Result<seq<TableReport>, Error>)
    ensures TablesOnly(db, db') && db'.tables.Keys == db.tables.Keys
    ensures r.Err? ==> r.error.OtherError? && r.error in db.faults.Values
    // with only tool errors, no table stops the others
    ensures ToolFaultsOnly(db.faults) ==> r.Ok?
    ensures r.Ok? ==> |r.value| == |changes| && forall j :: 0 <= j < |changes| ==> Reported(r.value[j])
    ensures r.Ok? ==> Attempted(db'.trace, |db.trace|, sde, changes, |changes|)
    // a table no change names is left alone
    ensures forall p :: p in db.tables && p !in ChangesPaths(sde, changes, |changes|) ==> db'.tables[p] == db.tables[p]
  {
    db' := db;
    var reports := [];
    var i := 0;
    while i < |changes|
      invariant 0 <= i <= |changes| && ModifiedUpTo(db, db', sde, changes, reports, i)
    {
      var report;
      db', report := ModifyNext(db, db', sde, changes, reports, i);
      if report.Err? {
        return db', Err(report.error);
      }
      reports := reports + [report.value];
      i := i + 1;
    }
    r := Ok(reports);
  }

  // ---------------------------------------------------------------- delete_domains

  /** What `delete_domains` reports for one domain: removed, or a tool error
      it caught, told apart by the "not a member" code. */
  datatype DomainReport = Removed | AlreadyGone(error: Error) | Unremoved(error: Error)

  predicate DomainReported(rep: DomainReport) {
    rep.Removed? || (rep.error.ExecuteError? && (rep.AlreadyGone? <==> DomainAlreadyRemoved(rep.error.message)))
  }

  /** Only the domains changed. */
  predicate DomainsOnly(db: Geodatabase, db': Geodatabase) {
    db'.tables == db.tables && db'.groups == db.groups && db'.rules == db.rules && db'.faults == db.faults
  }

  function DomainCalls(domains: seq<string>): (r: seq<Call>)
    ensures |r| == |domains|
    ensures forall i :: 0 <= i < |domains| ==> r[i] == DeleteDomain(domains[i])
  {
    seq(|domains|, i requires 0 <= i < |domains| => DeleteDomain(domains[i]))
  }

  /** The domains among the first `n` whose deletion is not planned to fail. */
  function Removable(domains: seq<string>, faults: map<Call, Error>, n: nat): set<string>
    requires n <= |domains|
  {
    set j | 0 <= j < n && DeleteDomain(domains[j]) !in faults :: domains[j]
  }

  lemma RemovableNext(domains: seq<string>, faults: map<Call, Error>, i: nat)
    requires i < |domains|
    ensures Removable(domains, faults, i + 1)
            == Removable(domains, faults, i) + (if DeleteDomain(domains[i]) !in faults then {domains[i]} else {})
    ensures forall d :: d in Removable(domains, faults, i + 1) ==> d in domains
  {
  }

  /** The backend's message for a missing domain carries the code the source
      looks for. */
  lemma DomainMissingRecognised(name: string)
    ensures DomainAlreadyRemoved(DomainMissing(name).message)
  {
    var m := DomainMissing(name).message;
    assert m[..|DomainMissingCode|] == DomainMissingCode;
    StartsWithContains(m, DomainMissingCode);
  }

  /** One domain of `delete_domains`. */
  method DeleteDomainOnce(db: Geodatabase, domain: string) returns (db': Geodatabase, r: Result<DomainReport, Error>)
    ensures DomainsOnly(db, db') && db'.trace == db.trace + [DeleteDomain(domain)]
    ensures db'.domains == if domain in db.domains && DeleteDomain(domain) !in db.faults then db.domains - {domain} else db.domains
    ensures r.Err? ==> r.error.OtherError? && r.error in db.faults.Values
    ensures r.Ok? ==> DomainReported(r.value)
    ensures r.Ok? && DeleteDomain(domain) !in db.faults ==>
      (r.value.Removed? <==> domain in db.domains) && (r.value.Removed? || r.value.AlreadyGone?)
  {
    var reply := db.RemoveDomain(domain);
    db' := reply.db;
    if reply.result.Ok? {
      return db', Ok(Removed);
    }
    var e := reply.result.error;
    if e.OtherError? {
      return db', Err(e);
    }
    if domain !in db.domains && DeleteDomain(domain) !in db.faults {
      DomainMissingRecognised(domain);
    }
    r := Ok(if DomainAlreadyRemoved(e.message) then AlreadyGone(e) else Unremoved(e));
  }

  /** `delete_domains`: every domain in order; a tool error is caught and
      reported and the next domain goes ahead, anything else ends the step. */
  method DeleteDomains(db: Geodatabase, domains: seq<string>) returns (db': Geodatabase, r: Result<seq<DomainReport>, Error>)
    ensures DomainsOnly(db, db') && db.trace <= db'.trace
    ensures r.Err? ==> r.error.OtherError? && r.error in db.faults.Values
    ensures ToolFaultsOnly(db.faults) ==> r.Ok?
    // only listed domains are removed, and nothing else changes in any domain
    ensures forall d :: d in db.domains && d !in domains ==> d in db'.domains
    ensures forall d :: d in db'.domains ==> d in db.domains && db'.domains[d] == db.domains[d]
    // every domain is attempted, and exactly those not planned to fail are gone
    ensures r.Ok? ==> db'.trace == db.trace + DomainCalls(domains)
    ensures r.Ok? ==> db'.domains == db.domains - Removable(domains, db.faults, |domains|)
    ensures r.Ok? ==> |r.value| == |domains| && forall j :: 0 <= j < |domains| ==> DomainReported(r.value[j])
    // a deletion that is not planned to fail removes the domain if an earlier
    // one did not, and otherwise is reported as already done
    ensures r.Ok? ==> forall j :: 0 <= j < |domains| && DeleteDomain(domains[j]) !in db.faults ==>
      && (r.value[j].Removed? <==> domains[j] in db.domains && domains[j] !in Removable(domains, db.faults, j))
      && (r.value[j].Removed? || r.value[j].AlreadyGone?)
  {
    db' := db;
    var reports := [];
    var i := 0;
    while i < |domains|
      invariant 0 <= i <= |domains|
      invariant DomainsOnly(db, db') && db'.trace == db.trace + DomainCalls(domains)[..i]
      invariant db'.domains == db.domains - Removable(domains, db.faults, i)
      invariant |reports| == i && forall j :: 0 <= j < i ==> DomainReported(reports[j])
      invariant forall j :: 0 <= j < i && DeleteDomain(domains[j]) !in db.faults ==>
        && (reports[j].Removed? <==> domains[j] in db.domains && domains[j] !in Removable(domains, db.faults, j))
        && (reports[j].Removed? || reports[j].AlreadyGone?)
    {
      var report;
      ghost var before := db';
      db', report := DeleteDomainOnce(db', domains[i]);
      assert DomainCalls(domains)[..i + 1] == DomainCalls(domains)[..i] + [DeleteDomain(domains[i])];
      RemovableNext(domains, db.faults, i);
      if report.Err? {
        return db', Err(report.error);
      }
      reports := reports + [report.value];
      i := i + 1;
    }
    assert DomainCalls(domains)[..i] == DomainCalls(domains);
    r := Ok(reports);
  }

  // ---------------------------------------------------------------- alter_domains

  function AlterCalls(changes: seq<DomainChange>): (r: seq<Call>)
    ensures |r| == |changes|
    ensures forall i :: 0 <= i < |changes| ==> r[i] == AddCodedValueToDomain(changes[i].domain, changes[i].code)
  {
    seq(|changes|, i requires 0 <= i < |changes| => AddCodedValueToDomain(changes[i].domain, changes[i].code))
  }

  /** The change is in place: its domain exists and holds its code. */
  predicate Applied(domains: map<string, seq<CodedValue>>, ch: DomainChange) {
    ch.domain in domains && HasCode(domains[ch.domain], ch.code)
  }

  /** Every domain keeps its coded values, perhaps with more after them. */
  predicate Extended(before: map<string, seq<CodedValue>>, after: map<string, seq<CodedValue>>) {
    before.Keys == after.Keys && forall d :: d in before ==> before[d] <= after[d]
  }

  /** The domains the first `n` changes name. */
  function ChangedDomains(changes: seq<DomainChange>, n: nat): set<string>
    requires n <= |changes|
  {
    set j | 0 <= j < n :: changes[j].domain
  }

  /** A domain's values after one change naming it: the coded value joins
      the end unless the call is planned to fail or the code is already
      there. */
  function ValueAdded(values: seq<CodedValue>, ch: DomainChange, faults: map<Call, Error>): seq<CodedValue> {
    if AddCodedValueToDomain(ch.domain, ch.code) !in faults && !HasCode(values, ch.code)
    then values + [CodedValue(ch.code, ch.description)]
    else values
  }

  /** The values of domain `d` after the first `n` changes: those naming `d`
      add their coded values in order. */
  function DomainAfter(values: seq<CodedValue>, d: string, changes: seq<DomainChange>, faults: map<Call, Error>, n: nat): seq<CodedValue>
    requires n <= |changes|
  {
    if n == 0 then values
    else
      var before := DomainAfter(values, d, changes, faults, n - 1);
      if changes[n - 1].domain == d then ValueAdded(before, changes[n - 1], faults) else before
  }

  /** The changes keep a domain's values, perhaps with more after them. */
  lemma {:induction false} DomainAfterExtends(values: seq<CodedValue>, d: string, changes: seq<DomainChange>, faults: map<Call, Error>, n: nat)
    requires n <= |changes|
    ensures values <= DomainAfter(values, d, changes, faults, n)
  {
    if n > 0 {
      DomainAfterExtends(values, d, changes, faults, n - 1);
    }
  }

  /** A domain none of the changes names keeps its values. */
  lemma {:induction false} DomainAfterUntouched(values: seq<CodedValue>, d: string, changes: seq<DomainChange>, faults: map<Call, Error>, n: nat)
    requires n <= |changes| && d !in ChangedDomains(changes, n)
    ensures DomainAfter(values, d, changes, faults, n) == values
  {
    if n > 0 {
      assert ChangedDomains(changes, n - 1) <= ChangedDomains(changes, n);
      DomainAfterUntouched(values, d, changes, faults, n - 1);
    }
  }

  /** Growing a domain keeps every code already in it. */
  lemma CodeKept(before: seq<CodedValue>, after: seq<CodedValue>, code: Value)
    requires before <= after && HasCode(before, code)
    ensures HasCode(after, code)
  {
    var i :| 0 <= i < |before| && before[i].code == code;
    assert after[i] == before[i];
  }

  /** Each change naming the domain whose call is not planned to fail leaves
      its code in the domain. */
  lemma {:induction false} DomainAfterApplied(values: seq<CodedValue>, d: string, changes: seq<DomainChange>, faults: map<Call, Error>, n: nat, j: nat)
    requires j < n <= |changes| && changes[j].domain == d
    requires AddCodedValueToDomain(d, changes[j].code) !in faults
    ensures HasCode(DomainAfter(values, d, changes, faults, n), changes[j].code)
  {
    var before := DomainAfter(values, d, changes, faults, n - 1);
    if j == n - 1 {
      if !HasCode(before, changes[j].code) {
        var after := before + [CodedValue(changes[j].code, changes[j].description)];
        assert after[|before|].code == changes[j].code;
      }
    } else {
      DomainAfterApplied(values, d, changes, faults, n - 1, j);
      CodeKept(before, DomainAfter(values, d, changes, faults, n), changes[j].code);
    }
  }

  /** The domains after the first `n` changes, given as the values of each. */
  predicate AlteredUpTo(start: map<string, seq<CodedValue>>, domains: map<string, seq<CodedValue>>, changes: seq<DomainChange>,
                        faults: map<Call, Error>, n: nat)
    requires n <= |changes|
  {
    domains.Keys == start.Keys && forall d :: d in start ==> domains[d] == DomainAfter(start[d], d, changes, faults, n)
  }

  /** One change of `alter_domains`; any exception is caught. */
  method AlterDomain(db: Geodatabase, ch: DomainChange) returns (db': Geodatabase)
    ensures DomainsOnly(db, db') && db'.trace == db.trace + [AddCodedValueToDomain(ch.domain, ch.code)]
    // only the change's own domain can change, and then as the change makes it
    ensures db'.domains == if ch.domain in db.domains then db.domains[ch.domain := ValueAdded(db.domains[ch.domain], ch, db.faults)]
                           else db.domains
    ensures Extended(db.domains, db'.domains)
    ensures ch.domain in db.domains && AddCodedValueToDomain(ch.domain, ch.code) !in db.faults ==> Applied(db'.domains, ch)
  {
    var reply := db.AddCodedValue(ch.domain, ch.code, ch.description);
    db' := reply.db;
    if ch.domain in db.domains && reply.result.Ok? {
      var vs := db'.domains[ch.domain];
      assert vs[|vs| - 1].code == ch.code;
    }
  }

  /** `alter_domains`: add each coded value in order; every failure is caught
      and passed over, so the step never fails and every change is tried. */
  method AlterDomains(db: Geodatabase, changes: seq<DomainChange>) returns (db': Geodatabase)
    ensures DomainsOnly(db, db') && db'.trace == db.trace + AlterCalls(changes)
    // each domain holds its values followed by those the changes naming it
    // added, in order
    ensures db'.domains.Keys == db.domains.Keys
    ensures forall d :: d in db.domains ==> db'.domains[d] == DomainAfter(db.domains[d], d, changes, db.faults, |changes|)
  {
    db' := db;
    var i := 0;
    while i < |changes|
      invariant 0 <= i <= |changes|
      invariant DomainsOnly(db, db') && db'.trace == db.trace + AlterCalls(changes)[..i]
      invariant AlteredUpTo(db.domains, db'.domains, changes, db.faults, i)
    {
      db' := AlterDomain(db', changes[i]);
      assert AlterCalls(changes)[..i + 1] == AlterCalls(changes)[..i] + [AlterCalls(changes)[i]];
      i := i + 1;
    }
    assert AlterCalls(changes)[..i] == AlterCalls(changes);
  }

  /** What `alter_domains` leaves: every domain keeps its values, a domain no
      change names is as it was, and a change whose domain exists and whose
      call is not planned to fail is in place. */
  lemma AlteredDomains(start: map<string, seq<CodedValue>>, domains: map<string, seq<CodedValue>>,
                       changes: seq<DomainChange>, faults: map<Call, Error>)
    requires AlteredUpTo(start, domains, changes, faults, |changes|)
    ensures Extended(start, domains)
    ensures forall d :: d in start && d !in ChangedDomains(changes, |changes|) ==> domains[d] == start[d]
    ensures forall j :: 0 <= j < |changes| && changes[j].domain in start
              && AddCodedValueToDomain(changes[j].domain, changes[j].code) !in faults
              ==> Applied(domains, changes[j])
  {
    forall d | d in start
      ensures start[d] <= domains[d]
      ensures d !in ChangedDomains(changes, |changes|) ==> domains[d] == start[d]
    {
      DomainAfterExtends(start[d], d, changes, faults, |changes|);
      if d !in ChangedDomains(changes, |changes|) {
        DomainAfterUntouched(start[d], d, changes, faults, |changes|);
      }
    }
    forall j | 0 <= j < |changes| && changes[j].domain in start
                && AddCodedValueToDomain(changes[j].domain, changes[j].code) !in faults
      ensures Applied(domains, changes[j])
    {
      DomainAfterApplied(start[changes[j].domain], changes[j].domain, changes, faults, |changes|, j);
    }
  }

  // ---------------------------------------------------------------- migrate

  /** The calls that open the migration, before the tables are changed:
      compress and analyze, delete the old tables, unversion the rest. */
  function OpeningCalls(sde: string, tables: seq<string>): seq<Call> {
    [Compress, AnalyzeDatasets] + DeleteCalls(sde, TablesToDelete) + VersionCalls(false, tables, SkipTables, sde, |tables|)
  }

  /** The "Well Class" group ends with the contingent values the subclass
      domain calls for. */
  predicate WellClassReady(groups: map<(string, string), FieldGroup>, sde: string, domain: seq<CodedValue>)
    requires Contingency.SortedPairs(Contingency.CodesOf(domain)).Ok?
  {
    var key := (PathJoin(sde, Contingency.WellTable), Contingency.GroupName);
    var ws := Contingency.WellClassValues(domain);
    key in groups && |ws| <= |groups[key].values| && groups[key].values[|groups[key].values| - |ws|..] == ws
  }

  /** The subclass domain is neither deleted nor altered by the migration. */
  lemma SubclassDomainKept(faults: map<Call, Error>)
    ensures Contingency.SubclassDomain !in Removable(DomainsToDelete, faults, |DomainsToDelete|)
    ensures Contingency.SubclassDomain !in ChangedDomains(DomainsToUpdate, |DomainsToUpdate|)
  {
  }

  /** The subclass domain is as it was, present or not. */
  predicate SubclassKept(db: Geodatabase, db': Geodatabase) {
    var d := Contingency.SubclassDomain;
    (d in db'.domains <==> d in db.domains) && (d in db.domains ==> db'.domains[d] == db.domains[d])
  }

  /** The first two steps: clean up, then delete the old tables. The tables
      left are as they were. */
  method CleanAndDelete(db: Geodatabase, sde: string) returns (db': Geodatabase, r: Outcome<Error>)
    ensures TablesOnly(db, db')
    ensures forall p :: p in db'.tables ==> p in db.tables && db'.tables[p] == db.tables[p]
    ensures r.Pass? ==> db'.trace == db.trace + [Compress, AnalyzeDatasets] + DeleteCalls(sde, TablesToDelete)
    ensures r.Pass? ==> forall p :: p in db.tables && p !in PathsOf(sde, TablesToDelete, |TablesToDelete|) ==> p in db'.tables
  {
    db' := CleanUp(db);
    db', r := DeleteTables(db', TablesToDelete, sde);
  }

  /** The first three steps: clean up, delete the old tables, unversion. */
  method Prepare(db: Geodatabase, sde: string, tables: seq<string>) returns (db': Geodatabase, r: Outcome<Error>)
    ensures TablesOnly(db, db')
    ensures r.Pass? ==> db'.trace == db.trace + OpeningCalls(sde, tables)
    // every selected table ends unregistered and untracked, its fields and
    // data as they were
    ensures r.Pass? ==> AllFinal(db.tables, db'.tables, false, tables, SkipTables, sde, |tables|)
    ensures r.Pass? ==> AllDone(db'.tables, false, tables, SkipTables, sde, |tables|)
  {
    db', r := CleanAndDelete(db, sde);
    if r.Fail? {
      return;
    }
    ghost var deleted := db';
    db', r := VersionTables(db', false, tables, SkipTables, sde);
    if r.Pass? {
      TraceChain(db.trace, [Compress, AnalyzeDatasets], DeleteCalls(sde, TablesToDelete),
                 VersionCalls(false, tables, SkipTables, sde, |tables|), deleted.trace, db'.trace);
      AllFinalFrom(db.tables, deleted.tables, db'.tables, false, tables, SkipTables, sde, |tables|);
      AllFinalDone(db.tables, db'.tables, false, tables, SkipTables, sde, |tables|);
    }
  }

  /** Three steps that each append their calls append them all, in order. */
  lemma TraceChain(t: seq<Call>, a: seq<Call>, b: seq<Call>, c: seq<Call>, mid: seq<Call>, last: seq<Call>)
    requires mid == t + a + b && last == mid + c
    ensures last == t + (a + b + c)
  {
  }

  /** The schema steps: table changes, domain deletions, field moves. None
      touches the field groups or the subclass domain. */
  method Reshape(db: Geodatabase, sde: string) returns (db': Geodatabase, r: Outcome<Error>)
    ensures db.trace <= db'.trace && db'.groups == db.groups && db'.faults == db.faults
    ensures SubclassKept(db, db')
  {
    var modified;
    db', modified := ModifyTables(db, sde, TableModifications);
    if modified.Err? {
      return db', Fail(modified.error);
    }
    ghost var mid := db';
    var removed;
    db', removed := DeleteDomains(db', DomainsToDelete);
    if removed.Err? {
      return db', Fail(removed.error);
    }
    SubclassDomainKept(mid.faults);
    var moved;
    ghost var between;
    db', moved, between := MigrateFields(db', sde);
    r := if moved.Err? then Fail(moved.error) else Pass;
  }

  /** The contingent values, then the new coded values. */
  method Regroup(db: Geodatabase, sde: string) returns (db': Geodatabase, r: Outcome<Error>)
    ensures db.trace <= db'.trace && db'.tables == db.tables && db'.faults == db.faults
    ensures SubclassKept(db, db')
    ensures r.Pass? ==>
      && Contingency.SubclassDomain in db.domains
      && Contingency.SortedPairs(Contingency.CodesOf(db.domains[Contingency.SubclassDomain])).Ok?
      && WellClassReady(db'.groups, sde, db.domains[Contingency.SubclassDomain])
  {
    db', r := Contingency.CreateContingencies(db, sde);
    if r.Fail? {
      return;
    }
    ghost var grouped := db';
    db' := AlterDomains(db', DomainsToUpdate);
    SubclassNotAltered(grouped.domains, db'.domains, grouped.faults);
  }

  /** The domain alterations leave the subclass domain as it was. */
  lemma SubclassNotAltered(start: map<string, seq<CodedValue>>, domains: map<string, seq<CodedValue>>, faults: map<Call, Error>)
    requires domains.Keys == start.Keys
    requires forall d :: d in start ==> domains[d] == DomainAfter(start[d], d, DomainsToUpdate, faults, |DomainsToUpdate|)
    ensures var d := Contingency.SubclassDomain;
      (d in domains <==> d in start) && (d in start ==> domains[d] == start[d])
  {
    SubclassDomainKept(faults);
    var d := Contingency.SubclassDomain;
    if d in start {
      DomainAfterUntouched(start[d], d, DomainsToUpdate, faults, |DomainsToUpdate|);
    }
  }

  /** The `migrate` command: the steps in the order the entry point runs them,
      on the table names it lists after deleting the old tables. The first
      step that raises ends the migration. */
  method Migrate(db: Geodatabase, sde: string, tables: seq<string>) returns (db': Geodatabase, r: Outcome<Error>)
    ensures db.trace <= db'.trace
    // the tables are unversioned before anything else changes them ...
    ensures r.Pass? ==> db.trace + OpeningCalls(sde, tables) <= db'.trace
    // ... and versioned again as the very last thing
    ensures r.Pass? ==>
      var v := VersionCalls(true, tables, SkipTables, sde, |tables|);
      |v| <= |db'.trace| && db'.trace[|db'.trace| - |v|..] == v
    ensures r.Pass? ==> AllDone(db'.tables, true, tables, SkipTables, sde, |tables|)
    // the contingent values come from the subclass domain as it was, which
    // the migration keeps as it was
    ensures r.Pass? ==>
      && Contingency.SubclassDomain in db.domains
      && Contingency.SortedPairs(Contingency.CodesOf(db.domains[Contingency.SubclassDomain])).Ok?
      && WellClassReady(db'.groups, sde, db.domains[Contingency.SubclassDomain])
      && SubclassKept(db, db')
  {
    db', r := Prepare(db, sde, tables);
    if r.Fail? {
      return;
    }
    ghost var unversioned := db';
    db', r := Reshape(db', sde);
    if r.Fail? {
      return;
    }
    db', r := Regroup(db', sde);
    if r.Fail? {
      return;
    }
    ghost var reshaped := db';
    db', r := VersionTables(db', true, tables, SkipTables, sde);
    if r.Fail? {
      return;
    }
    AllFinalDone(reshaped.tables, db'.tables, true, tables, SkipTables, sde, |tables|);
    assert db'.trace[|db'.trace| - |VersionCalls(true, tables, SkipTables, sde, |tables|)|..]
        == VersionCalls(true, tables, SkipTables, sde, |tables|);
  }
}
