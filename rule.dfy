/** `models/rule.py`: a group of attribute rules for one table, created or
    updated together (`execute`) and removed together (`delete`). The group's
    fields are set once by its constructor and never change, so it is a value
    here; the backend it acts on is passed in and handed back. */
module Rules {
  import opened Wrappers
  import opened Text
  import opened Errors
  import opened Config
  import opened Backend

  /** One rule definition of a rules module: its name, type, Arcade text,
      editability, events, description, field, tag and, for a constraint
      that defines them, its error number and message. */
  datatype MetaRule = MetaRule(
    ruleName: string,
    ruleType: RuleType,
    arcade: string,
    editable: Editability,
    triggers: seq<Trigger>,
    description: string,
    field: string,
    tag: string,
    error: Option<RuleError>)

  datatype RuleGroup = RuleGroup(name: string, tablePath: string, metaRules: seq<MetaRule>)

  /** `RuleGroup(sde, table, rules)`: the group is named after its table and
      acts on the table's path inside the workspace. */
  function NewRuleGroup(sde: string, table: string, rules: seq<MetaRule>): (g: RuleGroup)
    ensures g.name == table && g.metaRules == rules
    ensures '/' !in table ==> Split(g.tablePath, '/') == Split(sde, '/') + [table]
  {
    var g := RuleGroup(table, PathJoin(sde, table), rules);
    if '/' !in table then PathJoinComponents(sde, table); g else g
  }

  // ---------------------------------------------------------------- triggering fields

  const ExcludedNames := ["createdon", "modifiedon", "editedby"]
  const ExcludedTypes := ["oid", "guid", "globalid"]

  /** A field whose edits trigger the rules: not one of three editor-tracking
      names and not an identifier type, both compared in lower case. */
  predicate Triggering(f: FieldDef) {
    Lower(f.name) !in ExcludedNames && Lower(f.fieldType) !in ExcludedTypes
  }

  /** The names of the triggering fields, in the table's field order. */
  function TriggeringFields(fields: seq<FieldDef>): (r: seq<string>)
    ensures |r| <= |fields|
    ensures forall n :: n in r <==> exists i :: 0 <= i < |fields| && fields[i].name == n && Triggering(fields[i])
  {
    if |fields| == 0 then []
    else
      var rest := TriggeringFields(fields[1..]);
      assert forall i :: 1 <= i < |fields| ==> fields[i] == fields[1..][i - 1];
      (if Triggering(fields[0]) then [fields[0].name] else []) + rest
  }

  /** The filter keeps order: the triggering fields of two runs of fields are
      those of the first run followed by those of the second. */
  lemma {:induction false} TriggeringFieldsAppend(a: seq<FieldDef>, b: seq<FieldDef>)
    ensures TriggeringFields(a + b) == TriggeringFields(a) + TriggeringFields(b)
    decreases |a|
  {
    if |a| == 0 {
      assert a + b == b;
    } else {
      var head := if Triggering(a[0]) then [a[0].name] else [];
      assert (a + b)[0] == a[0] && (a + b)[1..] == a[1..] + b;
      assert TriggeringFields(a + b) == head + TriggeringFields(a[1..] + b);
      assert TriggeringFields(a) == head + TriggeringFields(a[1..]);
      TriggeringFieldsAppend(a[1..], b);
    }
  }

  /** The `;`-joined list the rules are given. */
  function TriggeringText(fields: seq<FieldDef>): string {
    JoinWith(TriggeringFields(fields), ';')
  }

  /** The joined list splits back into the triggering field names when there
      is at least one and none holds a `;`. */
  lemma TriggeringTextRoundTrip(fields: seq<FieldDef>)
    requires |TriggeringFields(fields)| >= 1
    requires forall i :: 0 <= i < |fields| ==> ';' !in fields[i].name
    ensures Split(TriggeringText(fields), ';') == TriggeringFields(fields)
  {
    var names := TriggeringFields(fields);
    forall i | 0 <= i < |names|
      ensures ';' !in names[i]
    {
      assert names[i] in names;
    }
    SplitJoin(names, ';');
  }

  lemma TriggeringFieldsOne(f: FieldDef)
    ensures TriggeringFields([f]) == if Triggering(f) then [f.name] else []
  {
    assert [f][1..] == [];
  }

  const ObjectId := FieldDef("OBJECTID", "OID", "OBJECTID", None, None, None)
  const WellName := FieldDef("WellName", "String", "Well Name", Some(50), None, None)
  const CreatedOnField := FieldDef("CreatedOn", "Date", "CreatedOn", None, None, None)
  const CreatedByField := FieldDef("CreatedBy", "String", "CreatedBy", Some(255), None, None)

  lemma ExampleVerdicts()
    ensures !Triggering(ObjectId) && Triggering(WellName) && !Triggering(CreatedOnField) && Triggering(CreatedByField)
  {
    assert Lower("OID") == "oid";
    assert Lower("WellName") == "wellname" && Lower("String") == "string";
    assert Lower("CreatedOn") == "createdon";
    assert Lower("CreatedBy") == "createdby";
  }

  /** An identifier field and a tracking name (whatever its case) are left
      out; `CreatedBy` is not among the excluded names and stays. */
  lemma ExampleTriggeringFields()
    ensures TriggeringFields([ObjectId, WellName, CreatedOnField, CreatedByField]) == ["WellName", "CreatedBy"]
  {
    ExampleVerdicts();
    TriggeringFieldsOne(ObjectId);
    TriggeringFieldsOne(WellName);
    TriggeringFieldsOne(CreatedOnField);
    TriggeringFieldsOne(CreatedByField);
    TriggeringFieldsAppend([ObjectId, WellName], [CreatedOnField, CreatedByField]);
    TriggeringFieldsAppend([ObjectId], [WellName]);
    TriggeringFieldsAppend([CreatedOnField], [CreatedByField]);
    assert [ObjectId, WellName, CreatedOnField, CreatedByField] == [ObjectId, WellName] + [CreatedOnField, CreatedByField];
    assert [ObjectId, WellName] == [ObjectId] + [WellName];
    assert [CreatedOnField, CreatedByField] == [CreatedOnField] + [CreatedByField];
  }

  // ---------------------------------------------------------------- execute

  /** What `execute` does with one rule: updates it, creates it, or finds on
      creation that it already exists. */
  datatype RuleOutcome = Updated | Created | AlreadyExists(error: Error)

  /** The alteration: the rule's text, events, triggering fields and, when
      the rule defines them, its error number and message. */
  function ChangeFor(m: MetaRule, fields: string): RuleChange {
    RuleChange(m.arcade, m.triggers, fields, m.error)
  }

  /** The rule as created: everything the definition says, with no subtype,
      no severity and no batch evaluation. */
  function FreshRule(m: MetaRule, fields: string): AttributeRule {
    AttributeRule(m.ruleType, m.arcade, m.editable, m.triggers, fields, m.description, m.field, m.tag, m.error)
  }

  /** The stored rule carries the definition's text, events and triggering
      fields, and its error number and message when it defines them. */
  predicate Current(r: AttributeRule, m: MetaRule, fields: string) {
    r.script == m.arcade && r.triggers == m.triggers && r.triggeringFields == fields
    && (m.error.Some? ==> r.error == m.error)
  }

  /** Only the rules and the trace change, and the trace only grows. */
  predicate RulesOnly(db: Geodatabase, db': Geodatabase) {
    db'.tables == db.tables && db'.domains == db.domains && db'.groups == db.groups && db'.faults == db.faults
    && db.trace <= db'.trace
  }

  /** The calls for one rule: the alteration, then the creation unless the
      alteration went through. */
  function OutcomeCalls(path: string, m: MetaRule, o: RuleOutcome): seq<Call> {
    if o.Updated? then [AlterAttributeRule(path, m.ruleName)]
    else [AlterAttributeRule(path, m.ruleName), AddAttributeRule(path, m.ruleName)]
  }

  /** The calls for the first `n` rules given their outcomes. */
  function ExecuteCalls(path: string, rules: seq<MetaRule>, outs: seq<RuleOutcome>, n: nat): seq<Call>
    requires n <= |rules| && n <= |outs|
  {
    if n == 0 then []
    else ExecuteCalls(path, rules, outs, n - 1) + OutcomeCalls(path, rules[n - 1], outs[n - 1])
  }

  /** The calls depend only on the outcomes so far. */
  lemma {:induction false} ExecuteCallsPrefix(path: string, rules: seq<MetaRule>, a: seq<RuleOutcome>, b: seq<RuleOutcome>, n: nat)
    requires n <= |rules| && n <= |a| && n <= |b|
    requires forall j :: 0 <= j < n ==> a[j] == b[j]
    ensures ExecuteCalls(path, rules, a, n) == ExecuteCalls(path, rules, b, n)
  {
    if n > 0 {
      ExecuteCallsPrefix(path, rules, a, b, n - 1);
    }
  }

  /** The backend's message for an existing rule carries the prefix the
      source looks for. */
  lemma RuleExistsRecognised(name: string)
    ensures RuleAlreadyExists(RuleExists(name).message)
  {
    assert RuleExists(name).message[..|RuleExistsCode|] == RuleExistsCode;
  }

  /** The backend's message for a missing rule carries the prefix the source
      looks for. */
  lemma RuleMissingRecognised(name: string)
    ensures RuleAlreadyDeleted(RuleMissing(name).message)
  {
    assert RuleMissing(name).message[..|RuleMissingCode|] == RuleMissingCode;
  }

  /** The alteration of one rule. */
  method AlterStep(db: Geodatabase, path: string, m: MetaRule, fields: string) returns (db': Geodatabase, ok: bool)
    ensures var key, c := (path, m.ruleName), AlterAttributeRule(path, m.ruleName);
      && (ok <==> key in db.rules && c !in db.faults)
      && (db' == if ok then db.(rules := db.rules[key := Altered(db.rules[key], ChangeFor(m, fields))]).Log(c) else db.Log(c))
  {
    var reply := db.AlterRule(path, m.ruleName, ChangeFor(m, fields));
    db' := reply.db;
    ok := reply.result.Ok?;
  }

  /** The creation of one rule. */
  method CreateStep(db: Geodatabase, path: string, m: MetaRule, fields: string) returns (db': Geodatabase, r: Outcome<Error>)
    ensures var key, c := (path, m.ruleName), AddAttributeRule(path, m.ruleName);
      && (r.Pass? <==> key !in db.rules && c !in db.faults)
      && (db' == if r.Pass? then db.(rules := db.rules[key := FreshRule(m, fields)]).Log(c) else db.Log(c))
      && (r.Fail? ==> r.error == if c in db.faults then db.faults[c] else RuleExists(m.ruleName))
  {
    var reply := db.AddRule(path, m.ruleName, FreshRule(m, fields));
    db' := reply.db;
    r := if reply.result.Err? then Fail(reply.result.error) else Pass;
  }

  /** One rule of `execute`: alter it; on any exception create it instead; a
      tool error whose message starts with the "already exists" code is
      passed over, anything else propagates. */
  method ExecuteOne(db: Geodatabase, path: string, m: MetaRule, fields: string) returns (db': Geodatabase, r: Result<RuleOutcome, Error>)
    ensures var key, alter, add := (path, m.ruleName), AlterAttributeRule(path, m.ruleName), AddAttributeRule(path, m.ruleName);
      && RulesOnly(db, db')
      && db'.rules - {key} == db.rules - {key}
      && db.rules.Keys <= db'.rules.Keys
      && (r == Ok(Updated) <==> alter !in db.faults && key in db.rules)
      && (r == Ok(Created) <==> !(alter !in db.faults && key in db.rules) && add !in db.faults && key !in db.rules)
      && (r.Ok? && r.value.AlreadyExists? ==> r.value.error.ExecuteError? && RuleAlreadyExists(r.value.error.message))
      // a rule reported as already there is left as it was
      && (r.Ok? && r.value.AlreadyExists? ==> db'.rules == db.rules)
      && (r.Ok? ==> db'.trace == db.trace + OutcomeCalls(path, m, r.value))
      && (r.Ok? && !r.value.AlreadyExists? ==> key in db'.rules && Current(db'.rules[key], m, fields))
      // a created rule is the definition as a new rule; an updated one is the
      // rule it was with the definition's change applied
      && (r == Ok(Created) ==> key in db'.rules && db'.rules[key] == FreshRule(m, fields))
      && (r == Ok(Updated) ==> key in db.rules && key in db'.rules && db'.rules[key] == Altered(db.rules[key], ChangeFor(m, fields)))
      // only a planned fault of the creation aborts, and without one the rule exists afterwards
      && (r.Err? ==> add in db.faults && r.error == db.faults[add] && db'.rules == db.rules)
      && (r.Err? ==> !(r.error.ExecuteError? && RuleAlreadyExists(r.error.message)))
      && (add !in db.faults ==> r.Ok? && key in db'.rules)
  {
    var ok;
    db', ok := AlterStep(db, path, m, fields);
    if ok {
      return db', Ok(Updated);
    }
    var created;
    db', created := CreateStep(db', path, m, fields);
    if created.Pass? {
      return db', Ok(Created);
    }
    var e := created.error;
    if AddAttributeRule(path, m.ruleName) !in db.faults {
      RuleExistsRecognised(m.ruleName);
    }
    if e.ExecuteError? && RuleAlreadyExists(e.message) {
      r := Ok(AlreadyExists(e));
    } else {
      r := Err(e);
    }
  }

  /** No two rules of the group share a name. */
  predicate DistinctNames(rules: seq<MetaRule>) {
    forall i, j :: 0 <= i < j < |rules| ==> rules[i].ruleName != rules[j].ruleName
  }

  /** The rule keys of the first `n` rules. */
  function RuleKeys(path: string, rules: seq<MetaRule>, n: nat): set<(string, string)>
    requires n <= |rules|
  {
    set j | 0 <= j < n :: (path, rules[j].ruleName)
  }

  /** Rules are only added or changed, and only the first `n` of the group. */
  predicate Framed(start: map<(string, string), AttributeRule>, now: map<(string, string), AttributeRule>,
                   path: string, rules: seq<MetaRule>, n: nat)
    requires n <= |rules|
  {
    start.Keys <= now.Keys
    && forall k :: k in now && k !in RuleKeys(path, rules, n) ==> k in start && now[k] == start[k]
  }

  /** Each of the first `n` rules whose creation is not planned to fail exists. */
  predicate Present(now: map<(string, string), AttributeRule>, faults: map<Call, Error>, path: string, rules: seq<MetaRule>, n: nat)
    requires n <= |rules|
  {
    forall j :: 0 <= j < n && AddAttributeRule(path, rules[j].ruleName) !in faults ==> (path, rules[j].ruleName) in now
  }

  /** With distinct names: each of the first `n` rules created is its
      definition as a new rule, each updated is the rule at the start with
      the definition's change applied, a rule was updated exactly when it
      existed at the start and its alteration is not planned to fail, and a
      rule reported as already there is as it was at the start. */
  predicate Settled(start: map<(string, string), AttributeRule>, now: map<(string, string), AttributeRule>,
                    faults: map<Call, Error>, path: string, rules: seq<MetaRule>, outs: seq<RuleOutcome>, fields: string, n: nat)
    requires n <= |rules| && n <= |outs|
  {
    DistinctNames(rules) ==> forall j :: 0 <= j < n ==>
      var key := (path, rules[j].ruleName);
      && (outs[j].Created? ==> key in now && now[key] == FreshRule(rules[j], fields))
      && (outs[j].Updated? ==> key in start && key in now && now[key] == Altered(start[key], ChangeFor(rules[j], fields)))
      && (outs[j].Updated? <==> AlterAttributeRule(path, rules[j].ruleName) !in faults && key in start)
      && (outs[j].AlreadyExists? ==> (key in now <==> key in start) && (key in start ==> now[key] == start[key]))
  }

  /** What the loop of `execute` knows once it has handled the first `n`
      rules, whose outcomes are `outs`. */
  predicate Looped(db0: Geodatabase, db: Geodatabase, path: string, rules: seq<MetaRule>, outs: seq<RuleOutcome>, fields: string, n: nat)
    requires n <= |rules| && n <= |outs|
  {
    && RulesOnly(db0, db) && Framed(db0.rules, db.rules, path, rules, n)
    && db.trace == db0.trace + ExecuteCalls(path, rules, outs, n)
    && Present(db.rules, db0.faults, path, rules, n)
    && Settled(db0.rules, db.rules, db0.faults, path, rules, outs, fields, n)
  }

  /** One rule of the loop: what the loop knows for the rules before it
      holds for one more, or the step raises a planned fault. */
  method ExecuteStep(db0: Geodatabase, db: Geodatabase, path: string, rules: seq<MetaRule>, outs: seq<RuleOutcome>, fields: string, i: nat)
    returns (db': Geodatabase, r: Result<RuleOutcome, Error>)
    requires i < |rules| && |outs| == i
    requires Looped(db0, db, path, rules, outs, fields, i)
    ensures RulesOnly(db0, db')
    ensures r.Err? ==> r.error in db0.faults.Values && AddAttributeRule(path, rules[i].ruleName) in db0.faults
    ensures r.Err? ==> Framed(db0.rules, db'.rules, path, rules, |rules|)
    ensures r.Ok? ==> Looped(db0, db', path, rules, outs + [r.value], fields, i + 1)
  {
    db', r := ExecuteOne(db, path, rules[i], fields);
    if r.Err? {
      FramedWider(db0.rules, db'.rules, path, rules, i);
      return;
    }
    FramedNext(db0.rules, db.rules, db'.rules, path, rules, i);
    PresentNext(db.rules, db'.rules, db0.faults, path, rules, i);
    SettledNext(db0.rules, db.rules, db'.rules, db0.faults, path, rules, outs, r.value, fields, i);
    ExecuteCallsPrefix(path, rules, outs, outs + [r.value], i);
  }

  /** The loop of `execute` over the rules, with the triggering fields
      already joined. */
  method ExecuteAll(db: Geodatabase, path: string, rules: seq<MetaRule>, fields: string)
    returns (db': Geodatabase, r: Result<seq<RuleOutcome>, Error>)
    ensures RulesOnly(db, db') && Framed(db.rules, db'.rules, path, rules, |rules|)
    ensures r.Err? ==> r.error in db.faults.Values
    ensures (forall j :: 0 <= j < |rules| ==> AddAttributeRule(path, rules[j].ruleName) !in db.faults) ==> r.Ok?
    // the trace, the rules present and the outcomes are as the loop's
    // invariant says, for every rule
    ensures r.Ok? ==> |r.value| == |rules| && Looped(db, db', path, rules, r.value, fields, |rules|)
  {
    db' := db;
    var outs: seq<RuleOutcome> := [];
    var i := 0;
    while i < |rules|
      invariant 0 <= i <= |rules| && |outs| == i
      invariant Looped(db, db', path, rules, outs, fields, i)
    {
      var o;
      db', o := ExecuteStep(db, db', path, rules, outs, fields, i);
      if o.Err? {
        return db', Err(o.error);
      }
      outs := outs + [o.value];
      i := i + 1;
    }
    r := Ok(outs);
  }

  lemma FramedWider(start: map<(string, string), AttributeRule>, now: map<(string, string), AttributeRule>,
                     path: string, rules: seq<MetaRule>, n: nat)
    requires n <= |rules| && Framed(start, now, path, rules, n)
    ensures Framed(start, now, path, rules, |rules|)
  {
  }

  /** One more rule changes only its own key. */
  lemma FramedNext(start: map<(string, string), AttributeRule>, before: map<(string, string), AttributeRule>,
                   after: map<(string, string), AttributeRule>, path: string, rules: seq<MetaRule>, i: nat)
    requires i < |rules| && Framed(start, before, path, rules, i)
    requires var key := (path, rules[i].ruleName);
      after - {key} == before - {key} && before.Keys <= after.Keys
    ensures Framed(start, after, path, rules, i + 1)
  {
    var key := (path, rules[i].ruleName);
    assert RuleKeys(path, rules, i + 1) == RuleKeys(path, rules, i) + {key};
    forall k | k in before && k != key
      ensures k in after
    {
      assert k in before - {key};
    }
    forall k | k in after && k != key
      ensures k in before && after[k] == before[k]
    {
      assert k in after - {key};
    }
  }

  lemma PresentNext(before: map<(string, string), AttributeRule>, after: map<(string, string), AttributeRule>,
                    faults: map<Call, Error>, path: string, rules: seq<MetaRule>, i: nat)
    requires i < |rules| && Present(before, faults, path, rules, i) && before.Keys <= after.Keys
    requires AddAttributeRule(path, rules[i].ruleName) !in faults ==> (path, rules[i].ruleName) in after
    ensures Present(after, faults, path, rules, i + 1)
  {
  }

  /** One more rule keeps what `execute` established for the rules before it. */
  lemma SettledNext(start: map<(string, string), AttributeRule>, before: map<(string, string), AttributeRule>,
                    after: map<(string, string), AttributeRule>, faults: map<Call, Error>,
                    path: string, rules: seq<MetaRule>, outs: seq<RuleOutcome>, o: RuleOutcome, fields: string, i: nat)
    requires i < |rules| && |outs| == i
    requires var key := (path, rules[i].ruleName);
      && after - {key} == before - {key}
      && (o == Updated <==> AlterAttributeRule(path, rules[i].ruleName) !in faults && key in before)
      && (o == Created ==> key in after && after[key] == FreshRule(rules[i], fields))
      && (o == Updated ==> key in before && key in after && after[key] == Altered(before[key], ChangeFor(rules[i], fields)))
      && (o.AlreadyExists? ==> after == before)
    requires Framed(start, before, path, rules, i)
    requires Settled(start, before, faults, path, rules, outs, fields, i)
    ensures Settled(start, after, faults, path, rules, outs + [o], fields, i + 1)
  {
    if DistinctNames(rules) {
      var key := (path, rules[i].ruleName);
      assert key !in RuleKeys(path, rules, i);
      if key in before {
        assert key in start && before[key] == start[key];
      }
      if key in start {
        assert key in before;
      }
      forall j | 0 <= j < i
        ensures ((path, rules[j].ruleName) in after <==> (path, rules[j].ruleName) in before)
        ensures (path, rules[j].ruleName) in before ==> after[(path, rules[j].ruleName)] == before[(path, rules[j].ruleName)]
      {
        assert rules[j].ruleName != rules[i].ruleName;
        if (path, rules[j].ruleName) in before {
          assert (path, rules[j].ruleName) in before - {key};
        }
        if (path, rules[j].ruleName) in after {
          assert (path, rules[j].ruleName) in after - {key};
        }
      }
    }
  }

  /** Whether created or updated, a rule holds its definition's text,
      events, triggering fields and error; an update keeps the rule's type,
      editability, description, field and tags. */
  lemma StoredCurrent(old_rule: AttributeRule, m: MetaRule, fields: string)
    ensures Current(FreshRule(m, fields), m, fields)
    ensures var a := Altered(old_rule, ChangeFor(m, fields));
      && Current(a, m, fields)
      && a.ruleType == old_rule.ruleType && a.editable == old_rule.editable && a.description == old_rule.description
      && a.field == old_rule.field && a.tags == old_rule.tags
  {
  }

  /** With distinct names, every rule `execute` created or updated holds
      its definition. */
  lemma SettledCurrent(start: map<(string, string), AttributeRule>, now: map<(string, string), AttributeRule>,
                       faults: map<Call, Error>, path: string, rules: seq<MetaRule>, outs: seq<RuleOutcome>, fields: string, n: nat)
    requires n <= |rules| && n <= |outs| && DistinctNames(rules)
    requires Settled(start, now, faults, path, rules, outs, fields, n)
    ensures forall j :: 0 <= j < n && !outs[j].AlreadyExists? ==>
      (path, rules[j].ruleName) in now && Current(now[(path, rules[j].ruleName)], rules[j], fields)
  {
    forall j | 0 <= j < n && !outs[j].AlreadyExists?
      ensures (path, rules[j].ruleName) in now && Current(now[(path, rules[j].ruleName)], rules[j], fields)
    {
      var key := (path, rules[j].ruleName);
      if outs[j].Updated? {
        StoredCurrent(start[key], rules[j], fields);
      } else {
        StoredCurrent(now[key], rules[j], fields);
      }
    }
  }

  /** `execute`: list the table's fields once, then alter or create each rule
      in order with the triggering fields joined by `;`. Listing the fields
      may raise; so may a creation that fails other than by the rule already
      existing. */
  method Execute(db: Geodatabase, g: RuleGroup) returns (db': Geodatabase, r: Result<seq<RuleOutcome>, Error>)
    ensures RulesOnly(db, db')
    ensures r.Err? ==> r.error in db.faults.Values || r.error == DatasetMissing(g.tablePath)
    ensures ListFields(g.tablePath, None) !in db.faults && g.tablePath in db.tables
            && (forall j :: 0 <= j < |g.metaRules| ==> AddAttributeRule(g.tablePath, g.metaRules[j].ruleName) !in db.faults)
            ==> r.Ok?
    // nothing is removed, and no rule outside the group changes
    ensures Framed(db.rules, db'.rules, g.tablePath, g.metaRules, |g.metaRules|)
    ensures r.Ok? ==> g.tablePath in db.tables && |r.value| == |g.metaRules|
    // the fields are listed first, then each rule is altered and, failing that, created
    ensures r.Ok? ==> db'.trace == db.trace + [ListFields(g.tablePath, None)] + ExecuteCalls(g.tablePath, g.metaRules, r.value, |g.metaRules|)
    // every rule whose creation is not planned to fail exists afterwards
    ensures r.Ok? ==> Present(db'.rules, db.faults, g.tablePath, g.metaRules, |g.metaRules|)
    // with distinct names, each rule created is its definition, each rule
    // updated is the rule it was with the definition's change applied, both
    // with the table's triggering fields, and a rule is updated exactly when
    // it existed and the alteration is not planned to fail
    ensures r.Ok? ==> (g.tablePath in db.tables
      && Settled(db.rules, db'.rules, db.faults, g.tablePath, g.metaRules, r.value,
                 TriggeringText(db.tables[g.tablePath].fields), |g.metaRules|))
  {
    var listed := db.ListFieldsOf(g.tablePath, None);
    db' := listed.db;
    if listed.result.Err? {
      return db', Err(listed.result.error);
    }
    db', r := ExecuteAll(db', g.tablePath, g.metaRules, TriggeringText(listed.result.value));
  }

  // ---------------------------------------------------------------- delete

  /** What `delete` does with one rule: removes it, or finds it already gone. */
  datatype DeleteOutcome = Deleted | AlreadyDeleted(error: Error)

  function DeleteRuleCalls(path: string, rules: seq<MetaRule>): (r: seq<Call>)
    ensures |r| == |rules|
    ensures forall i :: 0 <= i < |rules| ==> r[i] == DeleteAttributeRule(path, rules[i].ruleName)
  {
    seq(|rules|, i requires 0 <= i < |rules| => DeleteAttributeRule(path, rules[i].ruleName))
  }

  /** The keys of the first `n` rules whose deletion is not planned to fail. */
  function Deletable(path: string, rules: seq<MetaRule>, faults: map<Call, Error>, n: nat): set<(string, string)>
    requires n <= |rules|
  {
    set j | 0 <= j < n && DeleteAttributeRule(path, rules[j].ruleName) !in faults :: (path, rules[j].ruleName)
  }

  lemma DeletableNext(path: string, rules: seq<MetaRule>, faults: map<Call, Error>, i: nat)
    requires i < |rules|
    ensures Deletable(path, rules, faults, i + 1)
            == Deletable(path, rules, faults, i)
               + (if DeleteAttributeRule(path, rules[i].ruleName) !in faults then {(path, rules[i].ruleName)} else {})
  {
  }

  /** One rule of `delete`: a tool error whose message starts with the
      "does not exist" code is passed over, anything else propagates. */
  method DeleteOne(db: Geodatabase, path: string, m: MetaRule) returns (db': Geodatabase, r: Result<DeleteOutcome, Error>)
    ensures var key, c := (path, m.ruleName), DeleteAttributeRule(path, m.ruleName);
      && RulesOnly(db, db') && db'.trace == db.trace + [c]
      && db'.rules == (if key in db.rules && c !in db.faults then db.rules - {key} else db.rules)
      && (r == Ok(Deleted) <==> key in db.rules && c !in db.faults)
      && (r.Ok? && r.value.AlreadyDeleted? ==> r.value.error.ExecuteError? && RuleAlreadyDeleted(r.value.error.message))
      // only a planned fault aborts
      && (r.Err? ==> c in db.faults && r.error == db.faults[c])
      && (r.Err? ==> !(r.error.ExecuteError? && RuleAlreadyDeleted(r.error.message)))
      && (c !in db.faults ==> r.Ok?)
  {
    var reply := db.DeleteRule(path, m.ruleName);
    db' := reply.db;
    if reply.result.Ok? {
      return db', Ok(Deleted);
    }
    var e := reply.result.error;
    if DeleteAttributeRule(path, m.ruleName) !in db.faults {
      RuleMissingRecognised(m.ruleName);
    }
    if e.ExecuteError? && RuleAlreadyDeleted(e.message) {
      r := Ok(AlreadyDeleted(e));
    } else {
      r := Err(e);
    }
  }

  /** After `n` rules of `delete`: exactly the deletable ones among them are
      gone from `start`, and each unfaulted outcome says whether that rule
      was still there. */
  predicate Cleared(start: map<(string, string), AttributeRule>, now: map<(string, string), AttributeRule>,
                    faults: map<Call, Error>, path: string, rules: seq<MetaRule>, outs: seq<DeleteOutcome>, n: nat)
    requires n <= |rules| && n <= |outs|
  {
    && now == start - Deletable(path, rules, faults, n)
    && forall j :: 0 <= j < n && DeleteAttributeRule(path, rules[j].ruleName) !in faults ==>
         (outs[j].Deleted? <==> (path, rules[j].ruleName) in start && (path, rules[j].ruleName) !in Deletable(path, rules, faults, j))
  }

  /** One rule of the loop of `delete`. */
  method DeleteStep(db0: Geodatabase, db: Geodatabase, path: string, rules: seq<MetaRule>, outs: seq<DeleteOutcome>, i: nat)
    returns (db': Geodatabase, r: Result<DeleteOutcome, Error>)
    requires i < |rules| && |outs| == i
    requires RulesOnly(db0, db) && db.trace == db0.trace + DeleteRuleCalls(path, rules)[..i]
    requires Cleared(db0.rules, db.rules, db0.faults, path, rules, outs, i)
    ensures RulesOnly(db0, db')
    ensures r.Err? ==> r.error in db0.faults.Values && DeleteAttributeRule(path, rules[i].ruleName) in db0.faults
    ensures r.Ok? ==> db'.trace == db0.trace + DeleteRuleCalls(path, rules)[..i + 1]
    ensures r.Ok? ==> Cleared(db0.rules, db'.rules, db0.faults, path, rules, outs + [r.value], i + 1)
  {
    db', r := DeleteOne(db, path, rules[i]);
    assert DeleteRuleCalls(path, rules)[..i + 1] == DeleteRuleCalls(path, rules)[..i] + [DeleteRuleCalls(path, rules)[i]];
    DeletableNext(path, rules, db0.faults, i);
  }

  /** `delete`: remove each rule in order; a rule already gone is passed
      over, any other failure propagates. */
  method Delete(db: Geodatabase, g: RuleGroup) returns (db': Geodatabase, r: Result<seq<DeleteOutcome>, Error>)
    ensures RulesOnly(db, db')
    // only a planned fault aborts: deleting rules that are already gone succeeds
    ensures r.Err? ==> r.error in db.faults.Values
    ensures (forall j :: 0 <= j < |g.metaRules| ==> DeleteAttributeRule(g.tablePath, g.metaRules[j].ruleName) !in db.faults) ==> r.Ok?
    ensures r.Ok? ==> |r.value| == |g.metaRules| && db'.trace == db.trace + DeleteRuleCalls(g.tablePath, g.metaRules)
    // exactly the group's rules whose deletion is not planned to fail are gone
    ensures r.Ok? ==> db'.rules == db.rules - Deletable(g.tablePath, g.metaRules, db.faults, |g.metaRules|)
    ensures r.Ok? ==> forall j :: 0 <= j < |g.metaRules| && DeleteAttributeRule(g.tablePath, g.metaRules[j].ruleName) !in db.faults ==>
      (r.value[j].Deleted? <==> (g.tablePath, g.metaRules[j].ruleName) in db.rules
                                && (g.tablePath, g.metaRules[j].ruleName) !in Deletable(g.tablePath, g.metaRules, db.faults, j))
  {
    var path, rules := g.tablePath, g.metaRules;
    db' := db;
    var outs: seq<DeleteOutcome> := [];
    var i := 0;
    while i < |rules|
      invariant 0 <= i <= |rules| && |outs| == i
      invariant RulesOnly(db, db') && db'.trace == db.trace + DeleteRuleCalls(path, rules)[..i]
      invariant Cleared(db.rules, db'.rules, db.faults, path, rules, outs, i)
    {
      var o;
      db', o := DeleteStep(db, db', path, rules, outs, i);
      if o.Err? {
        return db', Err(o.error);
      }
      outs := outs + [o.value];
      i := i + 1;
    }
    assert DeleteRuleCalls(path, rules)[..i] == DeleteRuleCalls(path, rules);
    r := Ok(outs);
  }
}
