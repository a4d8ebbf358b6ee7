# UIC attribute rules: the geodatabase migration and the rule groups, in Dafny

This project models the schema migration and the attribute-rule groups of the
UIC (Underground Injection Control) geodatabase tooling. It covers three parts:

- **The `migrate` command** (`src/migrations.py`). It compresses and analyzes the
  database, deletes the retired tables and unversions the remaining tables. It
  then drops and adds fields, deletes obsolete domains and moves two columns from
  UICFacility to UICWell. Next it rebuilds the "Well Class" contingent field group
  from the well-subclass domain and adds coded values to three domains. Finally it
  versions the tables again.
- **`RuleGroup`** (`src/models/rule.py`). A group of attribute rules for one table.
  `execute` alters each rule or, failing that, creates it, with the table's
  triggering fields. `delete` removes each rule.
- **The configuration** (`src/config/config.py`). The trigger, rule-type and
  editability names, and the connection file for each environment.

The geodatabase is one value, `Backend.Geodatabase`, holding:

- the tables, each with its fields, rows, and versioning and editor-tracking flags;
- the coded-value domains;
- the contingent field groups;
- the attribute rules;
- a fault plan, which names the calls that fail and the error each raises;
- a trace of every call attempted, in order.

Every step takes the backend and returns the backend after it. A failing call
changes nothing, records itself in the trace and raises its error. The backend
also raises the errors it would raise by itself: a missing dataset (ERROR
000732, also for `Delete`), a field that is absent (ERROR 000728) or already
present (ERROR 000012), a missing domain, a missing field group, or a rule that
exists or is missing. Because faults are a free input, every property below
holds whichever calls fail.

Errors are either `ExecuteError` (a geoprocessing tool error) or any other
exception. The source distinguishes the two: `modify_tables`, `delete_domains`,
`create_contingencies` and `RuleGroup.delete` catch only `ExecuteError`, while
`alter_domains` and the alteration in `execute` catch everything. An uncaught
error ends the step and the migration.

Where the code and its descriptions disagree, the model follows the code. The
column move is described as skipped when the destination field already exists.
The code only tests whether the source field is gone, and if the source still
has it, the move goes ahead.

## Model

| member | source | states |
|---|---|---|
| Config.ParseTrigger | src/config/config.py:11-17 | a string names a trigger exactly when it is that trigger's name (UPDATE, INSERT, DELETE), and no other string names one |
| Config.ParseRuleType | src/config/config.py:19-24 | CALCULATION and CONSTRAINT are exactly the rule-type names |
| Config.ParseEditability | src/config/config.py:26-31 | EDITABLE and NONEDITABLE are exactly the editability names |
| Config.SdePathFor | src/config/config.py:34-49 | succeeds exactly for no environment, local, dev or prod; no environment and local give the localhost connection file, dev stage.sde and prod prod.sde, each under `pro-project`; any other name raises "<env> env not found" |
| Config.SdePathUnderProject | src/config/config.py:35-47 | every connection path's components are the root's, then `pro-project`, then the connection file |
| Migrations.CleanUp | src/migrations.py:129-147 | Compress and then AnalyzeDatasets are always both attempted; a failure of either is swallowed, and nothing but the trace changes |
| Migrations.DeleteOne | src/migrations.py:154 | `Delete` succeeds exactly when the dataset exists and the call is not planned to fail, and then removes exactly that table; otherwise it raises the planned error or ERROR 000732 and only the trace grows |
| Migrations.DeleteNext | src/migrations.py:153-154 | one Delete: the table leaves the backend exactly when it exists and the call is not planned to fail; otherwise the Delete raises the planned error or "does not exist", and the tables stay as they were |
| Migrations.DeleteTables | src/migrations.py:150-156 | one Delete per name, in order; the first Delete whose table is missing or whose call fails stops the loop and raises its error; exactly the tables named before it are gone; on success every name's table is gone and the trace holds all the deletes |
| Migrations.DeleteTablesAgain | src/migrations.py:150-156 | after a run that deleted every table, a second run stops at the first name, because its table is gone |
| Migrations.ThirdPart | src/migrations.py:161-162 | a table name has a third `.`-part exactly when splitting it at `.` gives at least three pieces (otherwise `parts[2]` raises) |
| Migrations.VersionCallsSelected | src/migrations.py:160-163 | a table's first call is made exactly when the table is listed and its third name part is not in the skip list |
| Migrations.VersionCallsPaired | src/migrations.py:165-196 | the calls come in pairs, one pair per selected table |
| Migrations.PairedOrder | src/migrations.py:165-196 | every opening call is followed at once by the closing call on the same table: editor tracking before registration when versioning, unregistration before disabling tracking when unversioning |
| Migrations.Open | src/migrations.py:168-188 | the opening call succeeds exactly when the table exists and the call is not planned to fail; on versioning it adds the four tracking fields the table lacks and turns tracking on; on unversioning it turns versioning off |
| Migrations.Close | src/migrations.py:178-196 | the closing call succeeds exactly when the table exists and the call is not planned to fail; it registers the table as versioned, or turns tracking off |
| Migrations.VersionOne | src/migrations.py:165-196 | both calls for one table, with nothing caught; they succeed exactly when the table exists and neither call fails, and the table is then exactly the opening call's result closed; after a failure the table is as it was or as the opening call left it; no other table changes |
| Migrations.FinalState | src/migrations.py:165-196 | after the pair of calls a table is versioned and tracked when versioning and neither when unversioning; versioning keeps every field and value and leaves the four tracking fields present; unversioning changes no field and no row; a second pair changes nothing |
| Migrations.VersionName | src/migrations.py:160-196 | one loop iteration: a skipped name makes no call, a selected one makes its pair; every selected table so far is exactly its starting table after the pair, and the other tables are untouched |
| Migrations.VersionTables | src/migrations.py:159-198 | succeeds exactly when every listed name has three parts and each selected table exists and has no failing call; the trace is then the pairs of the selected tables in list order, and each selected table is exactly its starting table after the pair; tables no selected name stands for are untouched |
| Migrations.DeleteStep | src/migrations.py:210-211 | DeleteField is called only when there are fields to drop; it succeeds exactly when the table has every listed field and the call is not planned to fail, and then drops exactly those fields |
| Migrations.AddStep | src/migrations.py:213-223 | AddField succeeds exactly when the table exists, lacks the field and the call is not planned to fail, and then adds that field |
| Migrations.AddNext | src/migrations.py:213-223 | one add: on success the tables are those after one more add, the field joining its table, which exists and lacked it; on failure only the trace grows |
| Migrations.AddLoop | src/migrations.py:213-223 | the loop over the adds ends after all of them or right after the first that raised, with the tables as the adds before it made them |
| Migrations.AddAll | src/migrations.py:213-223 | the adds run in order until the first failure; the tables are exactly those the adds before it make; after a full run every listed field exists |
| Migrations.AddsAppliedFields | src/migrations.py:213-223 | after the adds no table has appeared or gone, and a table has a field exactly when it had it before or one of the adds names that field for that table |
| Migrations.AddsAppliedKeeps | src/migrations.py:213-223 | the adds keep every table's fields, row count and values, and a table none of them names is unchanged |
| Migrations.AddsAppliedDef | src/migrations.py:213-223 | an add whose table lacked its field until then leaves that field with the add's own definition |
| Migrations.AddsAppliedHasAll | src/migrations.py:213-223 | when every add's table exists, every added field is present afterwards |
| Migrations.Caught | src/migrations.py:224-230 | an ExecuteError is caught and reported as "already upgraded" exactly when its message contains ERROR 002557; any other exception propagates unchanged |
| Migrations.ModifyTable | src/migrations.py:204-230 | the calls made are a prefix of the table's drop and adds; only a non-ExecuteError escapes; tables other than the change's own and its adds' are unchanged; when nothing fails, every add is in place and the tables are exactly the drop followed by the adds |
| Migrations.AddsAfterDrop | src/migrations.py:213-230 | the adds after a drop that went through: the same promises as for the whole table change |
| Migrations.ChangeMade | src/migrations.py:204-223 | after the drop and some of the adds, only tables the change names differ from the start; after all the adds the tables are exactly the drop followed by the adds |
| Migrations.ChangedFields | src/migrations.py:204-223 | after a table change, a table has a field exactly when it had it and the change does not drop it there, or one of the adds names it |
| Migrations.ChangedRows | src/migrations.py:204-223 | a table change keeps every table's rows, and each field it does not drop keeps its value in every row |
| Migrations.ModifyTables | src/migrations.py:201-231 | every table is attempted in order, and a tool error in one does not stop the rest; with only tool errors planned the step succeeds; only a planned non-tool error aborts it; only tables change, no table appears or disappears, and a table no change names is unchanged |
| Migrations.ModifyNext | src/migrations.py:202-230 | one loop iteration keeps the loop's knowledge for one more table, or a non-tool error escapes; either way no table outside the changes' tables changes |
| Migrations.DomainMissingRecognised | src/migrations.py:243 | the backend's error for a missing domain carries the ERROR 000800 code the step looks for |
| Migrations.DeleteDomainOnce | src/migrations.py:237-246 | one DeleteDomain removes the domain if it exists and the call is not planned to fail; a tool error is caught and reported as "already removed" exactly when it carries ERROR 000800; only a non-tool error escapes |
| Migrations.DeleteDomains | src/migrations.py:234-248 | only listed domains are removed, and nothing else in any domain changes; with only tool errors planned, every domain is attempted; exactly the listed domains whose deletion does not fail are then gone, and each report says whether that call removed the domain |
| Migrations.AlterDomain | src/migrations.py:409-412 | every exception is caught; the change's domain gains its coded value at the end when the domain exists, the call is not planned to fail and the code is not there yet, and otherwise nothing changes; no other domain changes |
| Migrations.AlterDomains | src/migrations.py:405-412 | every change is attempted in order and the step never fails; each domain ends as its values followed by the coded values of the changes naming it that went through, in order, and no domain appears or goes |
| Migrations.AlteredDomains | src/migrations.py:405-412 | so domains only grow, a domain no change names is unchanged, and each change whose domain exists and whose call does not fail is in place |
| Migrations.DomainAfterExtends | src/migrations.py:405-412 | the changes keep a domain's values in place, adding only after them |
| Migrations.DomainAfterUntouched | src/migrations.py:405-412 | a domain none of the changes names keeps its values |
| Migrations.DomainAfterApplied | src/migrations.py:409-412 | each change naming the domain whose call is not planned to fail leaves its code in the domain, whatever the later changes do |
| Migrations.SubclassDomainKept | src/migrations.py:97-126 | the well-subclass domain is neither among the domains deleted nor among those altered |
| Migrations.CleanAndDelete | src/migrations.py:435-437 | clean-up, then the deletions; only tables change, and only by removal; on success the trace holds exactly their calls and every table no deletion names is still there |
| Migrations.Prepare | src/migrations.py:435-441 | clean-up, the table deletions and unversioning run in that order; on success the trace holds exactly their calls, and every selected table that survived the deletions is exactly its starting table unversioned, without tracking |
| Migrations.Reshape | src/migrations.py:442-444 | the field changes, domain deletions and column moves leave the field groups and the well-subclass domain as they were |
| Migrations.Regroup | src/migrations.py:445-446 | on success the "Well Class" group holds the combinations the well-subclass domain calls for, and the domain alterations leave that domain as it was |
| Migrations.Migrate | src/migrations.py:434-447 | on success the tables are unversioned, right after clean-up and the deletions, before anything else changes them; versioning them again is the very last thing done, and every selected table ends versioned and tracked; the well-class combinations come from the subclass domain, which the migration keeps as it was |
| FieldTransfer.CacheLastWins | src/migrations.py:277-280 | a key is cached exactly when some source row carries it, with the value of the last row that does |
| FieldTransfer.BuildCache | src/migrations.py:277-280 | the cache-building loop yields that cache |
| FieldTransfer.AppliedRows | src/migrations.py:285-294 | a destination row gets the cached value exactly when its foreign key is cached and its update does not fail; every other row is as it was, and no key changes |
| FieldTransfer.AppliedRowsIdempotent | src/migrations.py:285-294 | applying the cache a second time changes nothing |
| FieldTransfer.AllWrittenMeans | src/migrations.py:284-297 | the `ok` flag stays true exactly when no update of a row with a cached key fails |
| FieldTransfer.UpdateOne | src/migrations.py:290-294 | one `updateRow` writes the row's cells unless it fails, in which case the failure is recorded and the row is unchanged |
| FieldTransfer.VisitRow | src/migrations.py:286-294 | one loop iteration: a row whose key is not cached is skipped without a call; otherwise the row is written |
| FieldTransfer.WriteCached | src/migrations.py:285-295 | the update loop leaves the destination rows as the cache applies them and reports whether every write went through |
| FieldTransfer.ApplyCache | src/migrations.py:285-295 | the update cursor cannot open on a missing table, a missing column or a planned fault, and nothing changes then; otherwise the rows are updated as the cache applies them |
| FieldTransfer.Prepared | src/migrations.py:263-274 | the destination table has the field afterwards, with as many rows as before |
| FieldTransfer.NamedEmptyMeansAbsent | src/migrations.py:258 | `ListFields(table, name)` is empty exactly when the table lacks the field |
| FieldTransfer.ListField | src/migrations.py:258 | listing reports whether the table has the field, or fails for a missing table or a planned fault |
| FieldTransfer.AddDestField | src/migrations.py:264-274 | AddField followed by AssignDefaultToField gives the destination the new field with its default, and changes no other table |
| FieldTransfer.EnsureDestField | src/migrations.py:263-274 | the destination field is created only when missing; on success the destination is the prepared table |
| FieldTransfer.ScanSource | src/migrations.py:277-280 | the search cursor reads `(GUID, value)` from the source, and the cache is built from those rows |
| FieldTransfer.DropSource | src/migrations.py:297-299 | DeleteField removes the moved field from the source, or fails and changes nothing |
| FieldTransfer.ApplyAndDrop | src/migrations.py:284-299 | the destination rows end as the cache applies them; the source field is dropped exactly when every write went through; the result says which |
| FieldTransfer.CopyColumn | src/migrations.py:276-299 | cache, apply, and then drop the source field only when every write went through |
| FieldTransfer.MoveColumn | src/migrations.py:262-299 | once the destination is prepared, its rows get the cached values; the source loses its field only after a complete copy; no other table changes |
| FieldTransfer.TransferField | src/migrations.py:253-299 | the move is "already done" exactly when the source field is gone, and then only the listing happens; otherwise the destination field is created only when missing, with the move's default, and filled from the cache; the source field is dropped only after a complete copy; no other table changes |
| FieldTransfer.MigrateFields | src/migrations.py:251-346 | the two moves run in order, each doing to the tables what a single move does, the second on the tables the first left; each one's "already done" test sees its source field as it was before the step; after two copies UICWell has both new fields, and after two complete copies UICFacility has lost both old ones; only the two tables involved change |
| FieldTransfer.FirstKeepsSecond | src/migrations.py:298-305 | the first move leaves the second move's source field, and so its "already done" test, as it was |
| FieldTransfer.TwoMoves | src/migrations.py:262-346 | two moves in sequence leave UICWell with both new fields after two copies, and UICFacility without both old ones after two complete copies |
| FieldTransfer.PreparedKeeps | src/migrations.py:309-319 | preparing the destination for a move keeps every field it already had |
| Contingency.LeadingClass | src/migrations.py:387 | the class is the ASCII digit the code's string form starts with, or a ValueError when that string does not start with one |
| Contingency.NumberClass | src/migrations.py:387 | a non-negative numeric code's class is its first decimal digit |
| Contingency.ClassRejects | src/migrations.py:387 | a missing code, a negative number, empty text and text not starting with an ASCII digit raise ValueError |
| Contingency.Classified | src/migrations.py:385-392 | collecting the tuples can only fail with ValueError |
| Contingency.ClassifiedOk | src/migrations.py:385-392 | collecting succeeds exactly when every code has a readable class |
| Contingency.ClassifiedMembers | src/migrations.py:385-392 | the tuples collected are exactly the codes not of class 7, each paired with its class |
| Contingency.SortByCode | src/migrations.py:394 | the sort gives a permutation of its input in ascending code order |
| Contingency.SortedPairs | src/migrations.py:385-394 | the loop and the sort fail only with ValueError or TypeError, and otherwise give tuples in ascending code order |
| Contingency.SortedPairsMeaning | src/migrations.py:385-394 | the loop and the sort succeed exactly when every code is readable and the kept codes are all numbers or all text; the result is then a permutation of the collected tuples, so it holds exactly the codes not of class 7 |
| Contingency.ContingentPairs | src/migrations.py:385-394 | the loop followed by the sort computes exactly that result |
| Contingency.WellClassValues | src/migrations.py:379-401 | the group receives the wildcard combination first, then only coded combinations of kept codes with their classes |
| Contingency.WorkedExample | src/migrations.py:379-401 | the codes 30, 71, 10 and 20 give the wildcard, then (1, 10), (2, 20) and (3, 30) in that order; 71 is of class 7 and skipped |
| Contingency.DropGroup | src/migrations.py:352-363 | only a non-ExecuteError from DeleteFieldGroup escapes; without a fault the group is gone afterwards; no other group changes |
| Contingency.MakeGroup | src/migrations.py:365-372 | only a non-ExecuteError from CreateFieldGroup escapes; without a fault and without an existing group, the group is created over WellClass and WellSubclass exactly when the table exists |
| Contingency.ResetGroup | src/migrations.py:352-372 | when neither call fails, the group exists exactly when the table does, and it is fresh and empty |
| Contingency.AddValue | src/migrations.py:397-401 | AddContingentValue succeeds exactly when the group exists and the call is not planned to fail, and then appends the combination |
| Contingency.AddValues | src/migrations.py:396-401 | the combinations are appended in order; the step succeeds exactly when every call would, and nothing else in the group changes |
| Contingency.SubclassCodes | src/migrations.py:375-376 | the codes of the well-subclass domain in the domain's order, or a failure when ListDomains fails or the domain is missing (the `[0]` on an empty list) |
| Contingency.FillGroup | src/migrations.py:379-401 | the wildcard, then one combination per sorted tuple; a failing sort aborts after the wildcard, which stays |
| Contingency.FillFromDomain | src/migrations.py:375-401 | a missing subclass domain, an unreadable class or a mix of numeric and text codes aborts; on success the group gains exactly the well-class values of the domain |
| Contingency.CreateContingencies | src/migrations.py:349-402 | on success the group ends with the wildcard and the sorted combinations, and holds nothing else when it was dropped and recreated; only that group changes |
| Rules.NewRuleGroup | src/models/rule.py:15-18 | the group is named after its table, keeps its rules, and its path is the workspace path followed by the table name |
| Rules.TriggeringFields | src/models/rule.py:23-28 | a name is listed exactly when some field carries it, that field's name is not createdon, modifiedon or editedby (ignoring case), and its type is not oid, guid or globalid (ignoring case) |
| Rules.TriggeringFieldsAppend | src/models/rule.py:23-28 | the filter keeps the table's field order |
| Rules.TriggeringTextRoundTrip | src/models/rule.py:39 | the `;`-joined list splits back into the triggering field names when no name holds `;` |
| Rules.ExampleVerdicts | src/models/rule.py:26-27 | an OID field and a CreatedOn field are excluded, while a text field and the CreatedBy tracking field are kept |
| Rules.ExampleTriggeringFields | src/models/rule.py:23-28 | for the fields OBJECTID, WellName, CreatedOn and CreatedBy the triggering fields are WellName and CreatedBy |
| Rules.RuleExistsRecognised | src/models/rule.py:80 | the backend's error for an existing rule starts with the ERROR 002541 code the step looks for |
| Rules.RuleMissingRecognised | src/models/rule.py:98 | the backend's error for a missing rule starts with the ERROR 002556 code the step looks for |
| Rules.AlterStep | src/models/rule.py:33-50 | the alteration succeeds exactly when the rule exists and the call is not planned to fail, and then sets the rule's text, events, triggering fields and, when defined, its error number and message |
| Rules.CreateStep | src/models/rule.py:52-76 | the creation succeeds exactly when the rule is absent and the call is not planned to fail, and stores the rule as defined; otherwise it raises the planned fault or "rule exists" |
| Rules.ExecuteOne | src/models/rule.py:30-83 | a rule is updated exactly when it exists and its alteration does not fail, and is created exactly when it is not updated, its creation does not fail and it did not exist; a created rule is exactly the definition as a new rule, an updated one is the old rule with the definition's text, events, triggering fields and error; an ExecuteError starting with ERROR 002541 is skipped and leaves the rules as they were, and only a planned fault of the creation escapes; no other rule changes |
| Rules.ExecuteStep | src/models/rule.py:30-83 | one loop iteration keeps the loop's invariants for one more rule, or raises a planned fault of its creation |
| Rules.ExecuteAll | src/models/rule.py:30-83 | the rules are handled in order, and only a planned creation fault aborts; the trace is each rule's alteration followed by its creation when needed; every rule whose creation does not fail exists afterwards; rules outside the group are untouched |
| Rules.Execute | src/models/rule.py:20-83 | the fields are listed once, first, and a missing table or a listing fault raises; then, with distinct rule names, each rule created is exactly its definition with the table's triggering fields, each rule updated is the rule it was with the definition's change applied, a rule is updated exactly when it existed and its alteration does not fail, and a rule skipped as already there is as it was; nothing is removed |
| Rules.SettledCurrent | src/models/rule.py:30-83 | with distinct names, every rule created or updated holds its definition's text, events, triggering fields and error |
| Rules.StoredCurrent | src/models/rule.py:33-76 | a created rule and an altered one both hold the definition's text, events, triggering fields and error; the alteration keeps the rule's type, editability, description, field and tags |
| Rules.DeleteOne | src/models/rule.py:86-101 | the rule is removed exactly when it exists and the call is not planned to fail; an ExecuteError starting with ERROR 002556 is skipped, and only a planned fault escapes |
| Rules.DeleteStep | src/models/rule.py:86-101 | one loop iteration keeps the loop's invariants for one more rule, or raises a planned fault |
| Rules.Delete | src/models/rule.py:85-101 | without planned faults the step succeeds, and deleting rules already gone succeeds too; exactly the group's rules whose deletion does not fail are gone; each report says whether that call removed the rule |

## Left out

- arcpy itself is modelled only through the calls the core makes. Geometry, versioned edit sessions, locks, permissions and the real error texts are left out. The backend's own errors carry the codes of the conditions they stand for (ERROR 000732 for a missing dataset, 000728 for a missing field, 000012 for a field already present, and the codes the source tests for a missing domain, field group or rule); the exact codes arcpy uses are a modelling assumption about the service.
- Migrations.Caught: no error the backend raises by itself carries ERROR 002557, so the "already upgraded" report of `modify_tables` is reached only through a planned fault. A field dropped twice or added twice raises ERROR 000728 or 000012 and is reported as abandoned.
- Values are null, integers or text. Floating-point and date values are not modelled; the column move and the contingent values carry only these.
- `_get_tables` (src/migrations.py:415-422) lists feature classes, tables and the datasets' feature classes through the workspace. The model takes the table list as an input to `Migrations.Migrate`.
- The command line (docopt), `print` output and the workspace setting are left out. So are `src/reference.py`, `src/services/loader.py` and the rule modules under `src/rules/`; these are not part of this model.
- The classification of caught tool errors ("already upgraded", "already removed", the ERROR 002585 field-group test) only decides what is printed. It is modelled as a report value, so `create_contingencies` does not record which message it printed.
- `message, = e.args` raises when an error carries other than one argument. The model gives every error exactly one message.
- `migrate_fields()` takes no argument and names its tables relative to the workspace; `create_contingencies` also names `UICWell` relative to it. `_get_tables` (src/migrations.py:418-419) sets the workspace to each feature dataset in turn and never sets it back, so after it runs these relative names resolve inside the last feature dataset, not in the geodatabase. The model joins the connection path to these names instead, which is what the names evidently intend; it does not model the workspace left inside a feature dataset.
- `DeleteDomain` and `AddCodedValueToDomain` receive the workspace in the source. The model has a single geodatabase and leaves that argument out.
- Names are compared exactly. arcpy compares field and table names without regard to case, and `str.lower` also folds non-ASCII letters; the model lowers only ASCII letters.
- Field precision and scale (`field_precision`, `field_scale`) are not modelled; a field definition carries its name, type, alias, length, domain and default.
- `DeleteAttributeRule` also receives the rule's type. The model identifies a rule by its table and name only.
- Contingency.CodeLe: codes of different kinds (number and text) are incomparable in Python, and the sort raises TypeError. The model orders them by kind only to keep the order total; `SortedPairs` raises TypeError for any such mix before sorting. Python's sort is stable, but equal codes yield identical tuples, so the order among them does not matter.
- Rules.Execute: the per-rule outcome (each rule holds its definition, "updated exactly when it existed") is stated for groups whose rule names are distinct. With a repeated name, a later definition overwrites an earlier one; the model still proves the frame, presence and trace properties for such groups.
- Migrations.ModifyTables: the exact tables after each change are stated per table (`Migrations.ModifyTable`). Across tables, the step states the calls attempted, the reports and that a table no change names is unchanged; it does not compose the per-table results into one expression for the whole list.
- Migrations.Migrate: the step does not state the final state of one table across all the steps. The table list from `_get_tables` holds qualified names (`owner.schema.table`), while the table changes and the column move name tables bare, so in the model they are different keys for what the real geodatabase treats as one table; a statement across the steps would need that name resolution, which is not modelled.
- Contingency.LeadingClass: the class is read only from an ASCII digit `0`-`9`. Python's `int()` also accepts other Unicode decimal digits (Arabic-Indic, fullwidth and so on), so a text code starting with one of them gets a class in the source and a ValueError in the model.
- Contingency.ClassRejects: its ValueError for text not starting with an ASCII digit also covers text starting with a non-ASCII Unicode decimal digit, for which Python's `int()` gives a class; the model follows `Contingency.LeadingClass` there.
