/** The geodatabase the migration and the rule code act on, seen only through the
    calls they make (arcpy's geoprocessing tools, listing functions and data
    access cursors). The whole backend is one value: the caller passes it in and
    receives the backend after the call together with the call's reply.

    Two things stand for what the model cannot see. `faults` says which calls
    fail and with which error: a call listed there changes nothing and raises
    that error, so every property proved below holds whatever failures the real
    service produces. `trace` records every call attempted, in order, which is
    how the order of operations is stated. */
module Backend {
  import opened Wrappers
  import opened Text
  import opened Errors
  import opened Config

  /** A cell value: `None`, a number or a string. */
  datatype Value = Null | Number(n: int) | Str(s: string)

  /** A row maps field names to values; a field the row lacks reads as `None`. */
  type Row = map<string, Value>

  function Get(row: Row, field: string): Value {
    if field in row then row[field] else Null
  }

  datatype FieldDef = FieldDef(
    name: string,
    fieldType: string,
    alias: string,
    length: Option<int>,
    domain: Option<string>,
    default: Option<Value>)

  datatype Table = Table(fields: seq<FieldDef>, rows: seq<Row>, versioned: bool, tracked: bool)

  function FieldNames(t: Table): (names: seq<string>)
    ensures |names| == |t.fields|
    ensures forall i :: 0 <= i < |t.fields| ==> names[i] == t.fields[i].name
  {
    seq(|t.fields|, i requires 0 <= i < |t.fields| => t.fields[i].name)
  }

  predicate HasField(t: Table, name: string) {
    name in FieldNames(t)
  }

  /** A table with one more nullable field; existing rows hold `None` in it. */
  function AddColumn(t: Table, def: FieldDef): (r: Table)
    ensures HasField(r, def.name)
    ensures |r.rows| == |t.rows|
  {
    var r := t.(fields := t.fields + [def],
                rows := seq(|t.rows|, i requires 0 <= i < |t.rows| => t.rows[i][def.name := Null]));
    assert FieldNames(r)[|t.fields|] == def.name;
    r
  }

  /** Adding a column adds exactly that field name to the schema. */
  lemma AddColumnHasField(t: Table, def: FieldDef, name: string)
    ensures HasField(AddColumn(t, def), name) <==> HasField(t, name) || name == def.name
  {
    var r := AddColumn(t, def);
    assert FieldNames(r) == FieldNames(t) + [def.name];
  }

  /** The table without the named fields, in its schema and in every row. */
  function DropColumns(t: Table, names: seq<string>): Table {
    t.(fields := Keep(t.fields, names),
       rows := seq(|t.rows|, i requires 0 <= i < |t.rows| => t.rows[i] - set n | n in names))
  }

  function Keep(fields: seq<FieldDef>, names: seq<string>): (r: seq<FieldDef>)
    ensures forall f :: f in r <==> f in fields && f.name !in names
  {
    if |fields| == 0 then []
    else if fields[0].name in names then Keep(fields[1..], names)
    else [fields[0]] + Keep(fields[1..], names)
  }

  /** Dropping columns removes exactly the named fields from the schema. */
  lemma DropColumnsHasField(t: Table, names: seq<string>, name: string)
    ensures HasField(DropColumns(t, names), name) <==> HasField(t, name) && name !in names
  {
    var r := DropColumns(t, names);
    if HasField(r, name) {
      var i :| 0 <= i < |FieldNames(r)| && FieldNames(r)[i] == name;
      assert r.fields[i] in Keep(t.fields, names);
      var j :| 0 <= j < |t.fields| && t.fields[j] == r.fields[i];
      assert FieldNames(t)[j] == name;
    }
    if HasField(t, name) && name !in names {
      var j :| 0 <= j < |FieldNames(t)| && FieldNames(t)[j] == name;
      assert t.fields[j] in r.fields;
      var i :| 0 <= i < |r.fields| && r.fields[i] == t.fields[j];
      assert FieldNames(r)[i] == name;
    }
  }

  /** The first of `names` the table lacks, if any. */
  function FirstMissing(t: Table, names: seq<string>): (r: Option<string>)
    ensures r.None? <==> forall n :: n in names ==> HasField(t, n)
    ensures r.Some? ==> r.value in names && !HasField(t, r.value)
  {
    if |names| == 0 then None
    else if !HasField(t, names[0]) then Some(names[0])
    else FirstMissing(t, names[1..])
  }

  /** The editor-tracking fields `EnableEditorTracking` creates with `ADD_FIELDS`. */
  const CreatedBy := FieldDef("CreatedBy", "TEXT", "CreatedBy", None, None, None)
  const CreatedOn := FieldDef("CreatedOn", "DATE", "CreatedOn", None, None, None)
  const EditedBy := FieldDef("EditedBy", "TEXT", "EditedBy", None, None, None)
  const ModifiedOn := FieldDef("ModifiedOn", "DATE", "ModifiedOn", None, None, None)

  function EnsureColumn(t: Table, def: FieldDef): Table {
    if HasField(t, def.name) then t else AddColumn(t, def)
  }

  /** A table once editor tracking is on: the tracking fields it lacks are
      added. */
  function Tracked(t: Table): Table {
    EnsureColumn(EnsureColumn(EnsureColumn(EnsureColumn(t, CreatedBy), CreatedOn), EditedBy), ModifiedOn).(tracked := true)
  }

  /** `t'` keeps the fields of `t` first, in order and with their
      definitions, and every row keeps its values in them. */
  ghost predicate Grown(t: Table, t': Table) {
    && t.fields <= t'.fields && |t'.rows| == |t.rows|
    && forall i, f :: 0 <= i < |t.rows| && HasField(t, f) ==> Get(t'.rows[i], f) == Get(t.rows[i], f)
  }

  lemma GrownTrans(a: Table, b: Table, c: Table)
    requires Grown(a, b) && Grown(b, c)
    ensures Grown(a, c)
  {
    forall f | HasField(a, f)
      ensures HasField(b, f)
    {
      var j :| 0 <= j < |FieldNames(a)| && FieldNames(a)[j] == f;
      assert FieldNames(b)[j] == b.fields[j].name == a.fields[j].name;
    }
  }

  /** A new column leaves the existing fields and their values alone. */
  lemma AddColumnGrown(t: Table, def: FieldDef)
    requires !HasField(t, def.name)
    ensures Grown(t, AddColumn(t, def))
  {
  }

  lemma EnsureColumnGrown(t: Table, def: FieldDef)
    ensures Grown(t, EnsureColumn(t, def))
    ensures forall n :: HasField(EnsureColumn(t, def), n) <==> HasField(t, n) || n == def.name
  {
    if !HasField(t, def.name) {
      AddColumnGrown(t, def);
      forall n
        ensures HasField(EnsureColumn(t, def), n) <==> HasField(t, n) || n == def.name
      {
        AddColumnHasField(t, def, n);
      }
    }
  }

  /** Editor tracking keeps the table's fields and data, and leaves it with
      the four tracking fields. */
  lemma TrackedGrown(t: Table)
    ensures Grown(t, Tracked(t))
    ensures forall n :: HasField(Tracked(t), n) <==> HasField(t, n) || n in TrackingNames
  {
    var t1 := EnsureColumn(t, CreatedBy);
    var t2 := EnsureColumn(t1, CreatedOn);
    var t3 := EnsureColumn(t2, EditedBy);
    var t4 := EnsureColumn(t3, ModifiedOn);
    EnsureColumnGrown(t, CreatedBy);
    EnsureColumnGrown(t1, CreatedOn);
    EnsureColumnGrown(t2, EditedBy);
    EnsureColumnGrown(t3, ModifiedOn);
    GrownTrans(t, t1, t2);
    GrownTrans(t, t2, t3);
    GrownTrans(t, t3, t4);
    assert FieldNames(Tracked(t)) == FieldNames(t4);
  }

  const TrackingNames := [CreatedBy.name, CreatedOn.name, EditedBy.name, ModifiedOn.name]

  /** Tracking a table that already has the four fields only turns tracking on. */
  lemma TrackedAgain(t: Table)
    requires forall n :: n in TrackingNames ==> HasField(t, n)
    ensures Tracked(t) == t.(tracked := true)
  {
    assert HasField(t, CreatedBy.name) && HasField(t, CreatedOn.name);
    assert HasField(t, EditedBy.name) && HasField(t, ModifiedOn.name);
  }

  datatype CodedValue = CodedValue(code: Value, description: string)

  /** Some coded value of the domain has this code. */
  predicate HasCode(values: seq<CodedValue>, code: Value) {
    exists i :: 0 <= i < |values| && values[i].code == code
  }

  /** A contingent value of the "Well Class" field group: either any well class
      with a null subclass, or a coded well class with a coded subclass. */
  datatype Combination = AnyClassNullSubclass | Coded(wellClass: int, subclass: Value)

  datatype FieldGroup = FieldGroup(fields: seq<string>, values: seq<Combination>)

  datatype RuleError = RuleError(number: int, message: string)

  /** An attribute rule as the backend stores it. */
  datatype AttributeRule = AttributeRule(
    ruleType: RuleType,
    script: string,
    editable: Editability,
    triggers: seq<Trigger>,
    triggeringFields: string,
    description: string,
    field: string,
    tags: string,
    error: Option<RuleError>)

  /** What `AlterAttributeRule` is given: the rule's text, its events, its
      triggering fields and, when the rule defines them, its error number and
      message. */
  datatype RuleChange = RuleChange(
    script: string,
    triggers: seq<Trigger>,
    triggeringFields: string,
    error: Option<RuleError>)

  /** The calls, with what identifies them for the fault plan and the trace. */
  datatype Call =
    | Compress
    | AnalyzeDatasets
    | DeleteDataset(path: string)
    | EnableEditorTracking(path: string)
    | RegisterAsVersioned(path: string)
    | UnregisterAsVersioned(path: string)
    | DisableEditorTracking(path: string)
    | DeleteField(path: string, names: seq<string>)
    | AddField(path: string, name: string)
    | AssignDefaultToField(path: string, name: string)
    | DeleteDomain(domain: string)
    | AddCodedValueToDomain(domain: string, code: Value)
    | ListFields(path: string, wildcard: Option<string>)
    | SearchCursor(path: string, columns: seq<string>)
    | UpdateCursor(path: string, columns: seq<string>)
    | UpdateRow(path: string, index: nat)
    | DeleteFieldGroup(path: string, group: string)
    | CreateFieldGroup(path: string, group: string)
    | AddContingentValue(path: string, group: string, combination: Combination)
    | ListDomains
    | AlterAttributeRule(path: string, rule: string)
    | AddAttributeRule(path: string, rule: string)
    | DeleteAttributeRule(path: string, rule: string)

  /** Errors the backend raises by itself, when a call does not fit its state. */
  function DatasetMissing(path: string): Error {
    ExecuteError("ERROR 000732: Dataset " + path + " does not exist or is not supported")
  }
  function FieldMissing(name: string): Error {
    ExecuteError("ERROR 000728: Field " + name + " does not exist within table")
  }
  function AlreadyPresent(name: string): Error {
    ExecuteError("ERROR 000012: " + name + " already exists")
  }
  function DomainMissing(name: string): Error {
    ExecuteError(DomainMissingCode + ": The value is not a member of " + name)
  }
  function FieldGroupMissing(name: string): Error {
    ExecuteError(FieldGroupMissingCode + ": Field group " + name + " does not exist")
  }
  function RuleExists(name: string): Error {
    ExecuteError(RuleExistsCode + ": Attribute rule " + name + " already exists")
  }
  function RuleMissing(name: string): Error {
    ExecuteError(RuleMissingCode + ": Attribute rule " + name + " does not exist")
  }
  function CursorCannotOpen(path: string): Error {
    OtherError("cannot open " + path)
  }

  /** The backend after a call, and the call's reply. */
  datatype Reply<+T> = Reply(db: Geodatabase, result: Result<T, Error>)

  datatype Geodatabase = Geodatabase(
    tables: map<string, Table>,
    domains: map<string, seq<CodedValue>>,
    groups: map<(string, string), FieldGroup>,
    rules: map<(string, string), AttributeRule>,
    faults: map<Call, Error>,
    trace: seq<Call>)
  {
    /** This backend with `c` recorded as attempted. */
    function Log(c: Call): (db: Geodatabase)
      ensures db.trace == trace + [c]
    {
      this.(trace := trace + [c])
    }

    /** The common shape of a call that returns nothing: a planned fault wins,
        then a natural error, otherwise the change `after` takes effect. */
    function Do(c: Call, natural: Option<Error>, after: Geodatabase): Reply<()>
      requires after.trace == trace && after.faults == faults
    {
      if c in faults then Reply(Log(c), Err(faults[c]))
      else if natural.Some? then Reply(Log(c), Err(natural.value))
      else Reply(after.Log(c), Ok(()))
    }

    function WithTable(path: string, t: Table): Geodatabase {
      this.(tables := tables[path := t])
    }

    function CompressDatabase(): Reply<()> {
      Do(Compress, None, this)
    }

    function Analyze(): Reply<()> {
      Do(AnalyzeDatasets, None, this)
    }

    /** `Delete`: the dataset must exist. */
    function DeleteTable(path: string): Reply<()> {
      if path !in tables then Do(DeleteDataset(path), Some(DatasetMissing(path)), this)
      else Do(DeleteDataset(path), None, this.(tables := tables - {path}))
    }

    function EnableTracking(path: string): Reply<()> {
      if path !in tables then Do(EnableEditorTracking(path), Some(DatasetMissing(path)), this)
      else
        Do(EnableEditorTracking(path), None, WithTable(path, Tracked(tables[path])))
    }

    function DisableTracking(path: string): Reply<()> {
      if path !in tables then Do(DisableEditorTracking(path), Some(DatasetMissing(path)), this)
      else Do(DisableEditorTracking(path), None, WithTable(path, tables[path].(tracked := false)))
    }

    function Register(path: string): Reply<()> {
      if path !in tables then Do(RegisterAsVersioned(path), Some(DatasetMissing(path)), this)
      else Do(RegisterAsVersioned(path), None, WithTable(path, tables[path].(versioned := true)))
    }

    function Unregister(path: string): Reply<()> {
      if path !in tables then Do(UnregisterAsVersioned(path), Some(DatasetMissing(path)), this)
      else Do(UnregisterAsVersioned(path), None, WithTable(path, tables[path].(versioned := false)))
    }

    /** `DeleteField` with a list of names: all of them must exist. */
    function DeleteFields(path: string, names: seq<string>): Reply<()> {
      var c := DeleteField(path, names);
      if path !in tables then Do(c, Some(DatasetMissing(path)), this)
      else match FirstMissing(tables[path], names)
        case Some(n) => Do(c, Some(FieldMissing(n)), this)
        case None => Do(c, None, WithTable(path, DropColumns(tables[path], names)))
    }

    function NewField(path: string, def: FieldDef): Reply<()> {
      var c := AddField(path, def.name);
      if path !in tables then Do(c, Some(DatasetMissing(path)), this)
      else if HasField(tables[path], def.name) then Do(c, Some(AlreadyPresent(def.name)), this)
      else Do(c, None, WithTable(path, AddColumn(tables[path], def)))
    }

    /** `AssignDefaultToField`; `None` leaves the field without a default. */
    function AssignDefault(path: string, name: string, default: Option<Value>): Reply<()> {
      var c := AssignDefaultToField(path, name);
      if path !in tables then Do(c, Some(DatasetMissing(path)), this)
      else
        var t := tables[path];
        if !HasField(t, name) then Do(c, Some(FieldMissing(name)), this)
        else
          var fields := seq(|t.fields|, i requires 0 <= i < |t.fields| =>
                          if t.fields[i].name == name then t.fields[i].(default := default) else t.fields[i]);
          Do(c, None, WithTable(path, t.(fields := fields)))
    }

    function RemoveDomain(name: string): Reply<()> {
      if name !in domains then Do(DeleteDomain(name), Some(DomainMissing(name)), this)
      else Do(DeleteDomain(name), None, this.(domains := domains - {name}))
    }

    function AddCodedValue(domain: string, code: Value, description: string): Reply<()> {
      var c := AddCodedValueToDomain(domain, code);
      if domain !in domains then Do(c, Some(DomainMissing(domain)), this)
      else if HasCode(domains[domain], code) then
        Do(c, Some(AlreadyPresent(domain)), this)
      else Do(c, None, this.(domains := domains[domain := domains[domain] + [CodedValue(code, description)]]))
    }

    /** `ListFields(path, wildcard)`: the fields, or those with the given name. */
    function ListFieldsOf(path: string, wildcard: Option<string>): Reply<seq<FieldDef>> {
      var c := ListFields(path, wildcard);
      if c in faults then Reply(Log(c), Err(faults[c]))
      else if path !in tables then Reply(Log(c), Err(DatasetMissing(path)))
      else
        var fields := tables[path].fields;
        Reply(Log(c), Ok(if wildcard.None? then fields else Named(fields, wildcard.value)))
    }

    /** A read cursor over `columns`: one tuple of values per row, in row order. */
    function Search(path: string, columns: seq<string>): Reply<seq<seq<Value>>> {
      var c := SearchCursor(path, columns);
      if c in faults then Reply(Log(c), Err(faults[c]))
      else if path !in tables then Reply(Log(c), Err(CursorCannotOpen(path)))
      else if FirstMissing(tables[path], columns).Some? then Reply(Log(c), Err(CursorCannotOpen(path)))
      else Reply(Log(c), Ok(Project(tables[path].rows, columns)))
    }

    /** Opening an update cursor: the same tuples as a read cursor. */
    function OpenUpdate(path: string, columns: seq<string>): Reply<seq<seq<Value>>> {
      var c := UpdateCursor(path, columns);
      if c in faults then Reply(Log(c), Err(faults[c]))
      else if path !in tables then Reply(Log(c), Err(CursorCannotOpen(path)))
      else if FirstMissing(tables[path], columns).Some? then Reply(Log(c), Err(CursorCannotOpen(path)))
      else Reply(Log(c), Ok(Project(tables[path].rows, columns)))
    }

    /** `cursor.updateRow`: writes the given cells of row `index`. */
    function UpdateRowAt(path: string, index: nat, cells: map<string, Value>): Reply<()> {
      var c := UpdateRow(path, index);
      if path !in tables || index >= |tables[path].rows| then Do(c, Some(CursorCannotOpen(path)), this)
      else
        var t := tables[path];
        Do(c, None, WithTable(path, t.(rows := t.rows[index := t.rows[index] + cells])))
    }

    function RemoveFieldGroup(path: string, name: string): Reply<()> {
      if (path, name) !in groups then Do(DeleteFieldGroup(path, name), Some(FieldGroupMissing(name)), this)
      else Do(DeleteFieldGroup(path, name), None, this.(groups := groups - {(path, name)}))
    }

    function NewFieldGroup(path: string, name: string, fields: seq<string>): Reply<()> {
      var c := CreateFieldGroup(path, name);
      if path !in tables then Do(c, Some(DatasetMissing(path)), this)
      else if (path, name) in groups then Do(c, Some(AlreadyPresent(name)), this)
      else Do(c, None, this.(groups := groups[(path, name) := FieldGroup(fields, [])]))
    }

    function AddContingency(path: string, name: string, v: Combination): Reply<()> {
      var c := AddContingentValue(path, name, v);
      if (path, name) !in groups then Do(c, Some(FieldGroupMissing(name)), this)
      else
        var g := groups[(path, name)];
        Do(c, None, this.(groups := groups[(path, name) := g.(values := g.values + [v])]))
    }

    /** `arcpy.da.ListDomains`: the coded values of every domain. */
    function ListAllDomains(): Reply<map<string, seq<CodedValue>>> {
      if ListDomains in faults then Reply(Log(ListDomains), Err(faults[ListDomains]))
      else Reply(Log(ListDomains), Ok(domains))
    }

    function AlterRule(path: string, name: string, change: RuleChange): Reply<()> {
      var c := AlterAttributeRule(path, name);
      if (path, name) !in rules then Do(c, Some(RuleMissing(name)), this)
      else Do(c, None, this.(rules := rules[(path, name) := Altered(rules[(path, name)], change)]))
    }

    function AddRule(path: string, name: string, rule: AttributeRule): Reply<()> {
      var c := AddAttributeRule(path, name);
      if (path, name) in rules then Do(c, Some(RuleExists(name)), this)
      else Do(c, None, this.(rules := rules[(path, name) := rule]))
    }

    function DeleteRule(path: string, name: string): Reply<()> {
      var c := DeleteAttributeRule(path, name);
      if (path, name) !in rules then Do(c, Some(RuleMissing(name)), this)
      else Do(c, None, this.(rules := rules - {(path, name)}))
    }
  }

  /** The fields carrying a given name. */
  function Named(fields: seq<FieldDef>, name: string): (r: seq<FieldDef>)
    ensures |r| == 0 <==> forall i :: 0 <= i < |fields| ==> fields[i].name != name
  {
    if |fields| == 0 then []
    else if fields[0].name == name then [fields[0]] + Named(fields[1..], name)
    else
      var r := Named(fields[1..], name);
      assert forall i :: 1 <= i < |fields| ==> fields[i] == fields[1..][i - 1];
      r
  }

  /** The rows as tuples of the named columns. */
  function Project(rows: seq<Row>, columns: seq<string>): (r: seq<seq<Value>>)
    ensures |r| == |rows|
    ensures forall i :: 0 <= i < |rows| ==> |r[i]| == |columns|
    ensures forall i, j :: 0 <= i < |rows| && 0 <= j < |columns| ==> r[i][j] == Get(rows[i], columns[j])
  {
    seq(|rows|, i requires 0 <= i < |rows| =>
      seq(|columns|, j requires 0 <= j < |columns| => Get(rows[i], columns[j])))
  }

  /** What `AlterAttributeRule` leaves: the new text, events and triggering
      fields, and the new error number and message only when given. */
  function Altered(r: AttributeRule, c: RuleChange): AttributeRule {
    r.(script := c.script, triggers := c.triggers, triggeringFields := c.triggeringFields,
       error := if c.error.Some? then c.error else r.error)
  }
}
