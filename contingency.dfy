/** `create_contingencies`: rebuilding the "Well Class" field group on UICWell.
    The group is dropped and recreated over (WellClass, WellSubclass); it then
    receives a wildcard combination (any class, no subclass) and one
    combination per subclass code, whose class is the code's first decimal
    digit. Codes of class 7 are left out, and the rest are added in ascending
    code order. */
module Contingency {
  import opened Wrappers
  import opened Text
  import opened Errors
  import opened Backend

  const WellTable := "UICWell"
  const GroupName := "Well Class"
  const GroupFields := ["WellClass", "WellSubclass"]
  const SubclassDomain := "UICWellSubClassDomain"
  /** The class whose subclasses get no contingent value. */
  const ReservedClass := 7

  const ValueErrorMessage := "ValueError: invalid literal for int() with base 10"
  const TypeErrorMessage := "TypeError: '<' not supported between instances of 'str' and 'int'"
  const IndexErrorMessage := "IndexError: list index out of range"

  // ---------------------------------------------------------------- int(str(code)[:1])

  function DigitChar(d: int): (c: char)
    requires 0 <= d <= 9
    ensures '0' <= c <= '9' && c as int - '0' as int == d
  {
    ('0' as int + d) as char
  }

  /** The decimal digits of a natural number, most significant first. */
  function Decimal(n: nat): (s: string)
    ensures |s| >= 1
    ensures forall i :: 0 <= i < |s| ==> '0' <= s[i] <= '9'
    decreases n
  {
    if n < 10 then [DigitChar(n)] else Decimal(n / 10) + [DigitChar(n % 10)]
  }

  /** Python's `str` on a coded value. */
  function PyStr(v: Value): string {
    match v
    case Null => "None"
    case Number(n) => if n < 0 then "-" + Decimal(-n) else Decimal(n)
    case Str(s) => s
  }

  /** `int(str(code)[:1])`: the class of a subclass code, or the `ValueError`
      that `int` raises when the first character is not a digit (or there is
      none). */
  function LeadingClass(code: Value): (r: Result<int, Error>)
    ensures r.Ok? ==> 0 <= r.value <= 9 && |PyStr(code)| > 0 && PyStr(code)[0] == DigitChar(r.value)
    ensures r.Err? ==> r.error == OtherError(ValueErrorMessage)
  {
    var s := PyStr(code);
    if |s| > 0 && '0' <= s[0] <= '9' then Ok(s[0] as int - '0' as int)
    else Err(OtherError(ValueErrorMessage))
  }

  function Pow10(k: nat): (p: nat)
    ensures p >= 1
  {
    if k == 0 then 1 else 10 * Pow10(k - 1)
  }

  /** Appending a digit scales the bounds of the leading digit by ten. */
  lemma ScaleBounds(d: int, p: nat, m: nat, r: nat)
    requires r < 10 && d * p <= m < (d + 1) * p
    ensures d * (10 * p) <= 10 * m + r < (d + 1) * (10 * p)
  {
    calc {
      d * (10 * p);
    ==
      10 * (d * p);
    <=
      10 * m;
    }
    assert m + 1 <= (d + 1) * p;
    calc {
      10 * m + r;
    <
      10 * (m + 1);
    <=
      10 * ((d + 1) * p);
    ==
      (d + 1) * (10 * p);
    }
  }

  /** The first decimal digit `d` of `n` satisfies `d * 10^k <= n < (d + 1) * 10^k`
      for `k + 1` the number of digits, and is not 0 unless `n` is. */
  lemma {:induction false} DecimalLeading(n: nat)
    ensures var s := Decimal(n);
            var d := s[0] as int - '0' as int;
            && d * Pow10(|s| - 1) <= n < (d + 1) * Pow10(|s| - 1)
            && (n > 0 ==> d >= 1)
    decreases n
  {
    if n >= 10 {
      var s, t := Decimal(n), Decimal(n / 10);
      DecimalLeading(n / 10);
      assert s == t + [DigitChar(n % 10)];
      assert s[0] == t[0];
      var d := t[0] as int - '0' as int;
      var p := Pow10(|t| - 1);
      assert Pow10(|s| - 1) == 10 * p;
      ScaleBounds(d, p, n / 10, n % 10);
    }
  }

  /** A non-negative numeric code's class is the first digit of its decimal
      form (which `DecimalLeading` bounds). */
  lemma NumberClass(n: nat)
    ensures LeadingClass(Number(n)) == Ok(Decimal(n)[0] as int - '0' as int)
  {
    var s := Decimal(n);
    assert PyStr(Number(n)) == s;
    assert |s| > 0 && '0' <= s[0] <= '9';
  }

  /** A negative number, a missing code and text not starting with a digit
      make `int` raise. */
  lemma ClassRejects(code: Value)
    requires code.Null? || (code.Number? && code.n < 0) || (code.Str? && (|code.s| == 0 || !('0' <= code.s[0] <= '9')))
    ensures LeadingClass(code) == Err(OtherError(ValueErrorMessage))
  {
  }

  // ---------------------------------------------------------------- the codes

  /** One `(well_class, code)` tuple. */
  datatype ClassCode = ClassCode(wellClass: int, code: Value)

  /** The tuples the loop collects from `codes`, in order: the first code whose
      class cannot be read aborts with its error; class-7 codes are skipped. */
  function Classified(codes: seq<Value>): (r: Result<seq<ClassCode>, Error>)
    ensures r.Err? ==> r.error == OtherError(ValueErrorMessage)
    decreases |codes|
  {
    if |codes| == 0 then Ok([])
    else
      match Classified(codes[..|codes| - 1])
      case Err(e) => Err(e)
      case Ok(ps) =>
        var c := codes[|codes| - 1];
        match LeadingClass(c)
        case Err(e) => Err(e)
        case Ok(d) => if d == ReservedClass then Ok(ps) else Ok(ps + [ClassCode(d, c)])
  }

  /** The collection succeeds exactly when every code has a readable class. */
  lemma {:induction false} ClassifiedOk(codes: seq<Value>)
    ensures Classified(codes).Ok? <==> forall i :: 0 <= i < |codes| ==> LeadingClass(codes[i]).Ok?
    decreases |codes|
  {
    if |codes| > 0 {
      var n := |codes| - 1;
      ClassifiedOk(codes[..n]);
      assert forall i :: 0 <= i < n ==> codes[..n][i] == codes[i];
    }
  }

  /** Read codes not of class 7 are kept. */
  predicate Kept(code: Value, wellClass: int) {
    LeadingClass(code) == Ok(wellClass) && wellClass != ReservedClass
  }

  /** A successful collection holds exactly the tuples of the codes not of
      class 7. */
  lemma {:induction false} ClassifiedMembers(codes: seq<Value>, p: ClassCode)
    requires Classified(codes).Ok?
    ensures p in Classified(codes).value <==> p.code in codes && Kept(p.code, p.wellClass)
    decreases |codes|
  {
    if |codes| > 0 {
      var n := |codes| - 1;
      var init := codes[..n];
      assert codes == init + [codes[n]];
      ClassifiedMembers(init, p);
    }
  }

  // ---------------------------------------------------------------- ordering

  /** Python's `<=` on text: code-point lexicographic order. */
  predicate TextLe(a: string, b: string)
    decreases |a|
  {
    |a| == 0 || (|b| > 0 && (a[0] < b[0] || (a[0] == b[0] && TextLe(a[1..], b[1..]))))
  }

  lemma {:induction false} TextLeTotal(a: string, b: string)
    ensures TextLe(a, b) || TextLe(b, a)
    decreases |a|
  {
    if |a| > 0 && |b| > 0 && a[0] == b[0] {
      TextLeTotal(a[1..], b[1..]);
    }
  }

  lemma {:induction false} TextLeTrans(a: string, b: string, c: string)
    requires TextLe(a, b) && TextLe(b, c)
    ensures TextLe(a, c)
    decreases |a|
  {
    if |a| > 0 && a[0] == b[0] && b[0] == c[0] {
      TextLeTrans(a[1..], b[1..], c[1..]);
    }
  }

  function KindRank(v: Value): int {
    match v
    case Null => 0
    case Number(_) => 1
    case Str(_) => 2
  }

  /** Python's `<=` between two codes of the same kind: numbers by value, text
      lexicographically. Codes of different kinds are incomparable in Python
      (the sort raises instead); they are ordered by kind here only to keep the
      order total. */
  predicate CodeLe(a: Value, b: Value) {
    if a.Number? && b.Number? then a.n <= b.n
    else if a.Str? && b.Str? then TextLe(a.s, b.s)
    else KindRank(a) <= KindRank(b)
  }

  /** Python can compare the two codes. */
  predicate Comparable(a: Value, b: Value) {
    (a.Number? && b.Number?) || (a.Str? && b.Str?)
  }

  lemma CodeLeTotal(a: Value, b: Value)
    ensures CodeLe(a, b) || CodeLe(b, a)
  {
    if a.Str? && b.Str? {
      TextLeTotal(a.s, b.s);
    }
  }

  lemma CodeLeTrans(a: Value, b: Value, c: Value)
    requires CodeLe(a, b) && CodeLe(b, c)
    ensures CodeLe(a, c)
  {
    if a.Str? && b.Str? && c.Str? {
      TextLeTrans(a.s, b.s, c.s);
    }
  }

  /** Some two of the tuples carry codes Python cannot compare. */
  predicate Mixed(ps: seq<ClassCode>) {
    exists i, j :: 0 <= i < j < |ps| && !Comparable(ps[i].code, ps[j].code)
  }

  /** Ascending by code. */
  predicate SortedByCode(ps: seq<ClassCode>) {
    forall i, j :: 0 <= i < j < |ps| ==> CodeLe(ps[i].code, ps[j].code)
  }

  /** Insert `x` after every element whose code is below it. */
  function Insert(x: ClassCode, ps: seq<ClassCode>): (r: seq<ClassCode>)
    ensures multiset(r) == multiset(ps) + multiset{x}
    decreases |ps|
  {
    if |ps| == 0 then [x]
    else if CodeLe(x.code, ps[0].code) then [x] + ps
    else
      assert ps == [ps[0]] + ps[1..];
      [ps[0]] + Insert(x, ps[1..])
  }

  /** Inserting into an ascending sequence keeps it ascending. */
  lemma {:induction false} InsertSorted(x: ClassCode, ps: seq<ClassCode>)
    requires SortedByCode(ps)
    ensures SortedByCode(Insert(x, ps))
    decreases |ps|
  {
    var r := Insert(x, ps);
    if |ps| == 0 {
    } else if CodeLe(x.code, ps[0].code) {
      forall i, j | 0 <= i < j < |r|
        ensures CodeLe(r[i].code, r[j].code)
      {
        if i == 0 && j > 1 {
          CodeLeTrans(x.code, ps[0].code, r[j].code);
        }
      }
    } else {
      var rest := Insert(x, ps[1..]);
      InsertSorted(x, ps[1..]);
      CodeLeTotal(x.code, ps[0].code);
      forall i, j | 0 <= i < j < |r|
        ensures CodeLe(r[i].code, r[j].code)
      {
        if i == 0 {
          assert r[j] == rest[j - 1];
          assert rest[j - 1] in multiset(rest);
          if rest[j - 1] != x {
            assert rest[j - 1] in multiset(ps[1..]);
            var k :| 0 <= k < |ps[1..]| && ps[1..][k] == rest[j - 1];
            assert ps[k + 1] == rest[j - 1];
          }
        } else {
          assert r[i] == rest[i - 1] && r[j] == rest[j - 1];
        }
      }
    }
  }

  /** `codes.sort(key=lambda x: x[1])` on tuples Python can compare: a
      permutation of its input in ascending code order. */
  function SortByCode(ps: seq<ClassCode>): (r: seq<ClassCode>)
    ensures multiset(r) == multiset(ps)
    ensures SortedByCode(r)
    decreases |ps|
  {
    if |ps| == 0 then []
    else
      assert ps == ps[..|ps| - 1] + [ps[|ps| - 1]];
      var sorted := SortByCode(ps[..|ps| - 1]);
      InsertSorted(ps[|ps| - 1], sorted);
      Insert(ps[|ps| - 1], sorted)
  }

  // ---------------------------------------------------------------- the loop and the sort

  /** What the `codes` loop and `codes.sort(key=lambda x: x[1])` produce: the
      `ValueError` of the first unreadable code, the `TypeError` of a sort
      that has to compare codes Python cannot order (a comparison sort
      compares every pair that ends up adjacent, and any such mix puts one
      such pair side by side), or the tuples in ascending code order. */
  function SortedPairs(codes: seq<Value>): (r: Result<seq<ClassCode>, Error>)
    ensures r.Err? ==> r.error == OtherError(ValueErrorMessage) || r.error == OtherError(TypeErrorMessage)
    ensures r.Ok? ==> SortedByCode(r.value)
  {
    match Classified(codes)
    case Err(e) => Err(e)
    case Ok(ps) => if Mixed(ps) then Err(OtherError(TypeErrorMessage)) else Ok(SortByCode(ps))
  }

  /** The collection and the sort succeed exactly when every code has a
      readable class and the kept codes are all numbers or all text; the
      result then holds each kept code once per occurrence, with its class,
      and nothing else. */
  lemma SortedPairsMeaning(codes: seq<Value>, p: ClassCode)
    ensures SortedPairs(codes).Ok? <==>
              (forall i :: 0 <= i < |codes| ==> LeadingClass(codes[i]).Ok?)
              && Classified(codes).Ok? && !Mixed(Classified(codes).value)
    ensures SortedPairs(codes).Ok? ==>
              multiset(SortedPairs(codes).value) == multiset(Classified(codes).value)
              && (p in SortedPairs(codes).value <==> p.code in codes && Kept(p.code, p.wellClass))
  {
    ClassifiedOk(codes);
    if SortedPairs(codes).Ok? {
      var ps := Classified(codes).value;
      ClassifiedMembers(codes, p);
      assert p in SortByCode(ps) <==> p in multiset(SortByCode(ps));
    }
  }

  /** The `codes` loop followed by `codes.sort(key=lambda x: x[1])`. */
  method ContingentPairs(codes: seq<Value>) returns (r: Result<seq<ClassCode>, Error>)
    ensures r == SortedPairs(codes)
  {
    var pairs := [];
    var i := 0;
    while i < |codes|
      invariant 0 <= i <= |codes|
      invariant Classified(codes[..i]) == Ok(pairs)
    {
      var wellClass := LeadingClass(codes[i]);
      if wellClass.Err? {
        ClassifiedOk(codes);
        return Err(wellClass.error);
      }
      assert codes[..i + 1][..i] == codes[..i];
      if wellClass.value != ReservedClass {
        pairs := pairs + [ClassCode(wellClass.value, codes[i])];
      }
      i := i + 1;
    }
    assert codes[..i] == codes;
    if Mixed(pairs) {
      return Err(OtherError(TypeErrorMessage));
    }
    r := Ok(SortByCode(pairs));
  }

  /** The coded-value combination of one tuple. */
  function Combos(ps: seq<ClassCode>): (r: seq<Combination>)
    ensures |r| == |ps|
    ensures forall i :: 0 <= i < |ps| ==> r[i] == Coded(ps[i].wellClass, ps[i].code)
  {
    seq(|ps|, i requires 0 <= i < |ps| => Coded(ps[i].wellClass, ps[i].code))
  }

  /** The codes of a domain, in the domain's order. */
  function CodesOf(values: seq<CodedValue>): (r: seq<Value>)
    ensures |r| == |values|
    ensures forall i :: 0 <= i < |values| ==> r[i] == values[i].code
  {
    seq(|values|, i requires 0 <= i < |values| => values[i].code)
  }

  /** The combinations the group receives from a domain's coded values: the
      wildcard, then one per kept code in ascending code order. */
  function WellClassValues(values: seq<CodedValue>): (r: seq<Combination>)
    requires SortedPairs(CodesOf(values)).Ok?
    ensures |r| >= 1 && r[0] == AnyClassNullSubclass
    ensures forall i :: 1 <= i < |r| ==> r[i].Coded? && Kept(r[i].subclass, r[i].wellClass)
  {
    var ps := SortedPairs(CodesOf(values)).value;
    forall p | p in ps
      ensures Kept(p.code, p.wellClass)
    {
      SortedPairsMeaning(CodesOf(values), p);
    }
    [AnyClassNullSubclass] + Combos(ps)
  }

  lemma ClassifiedSnoc(init: seq<Value>, c: Value)
    ensures Classified(init + [c]) ==
      match Classified(init)
      case Err(e) => Err(e)
      case Ok(ps) =>
        match LeadingClass(c)
        case Err(e) => Err(e)
        case Ok(d) => if d == ReservedClass then Ok(ps) else Ok(ps + [ClassCode(d, c)])
  {
    assert (init + [c])[..|init|] == init;
  }

  lemma SortSnoc(init: seq<ClassCode>, x: ClassCode)
    ensures SortByCode(init + [x]) == Insert(x, SortByCode(init))
  {
    assert (init + [x])[..|init|] == init;
  }

  lemma ExampleClasses()
    ensures LeadingClass(Number(30)) == Ok(3) && LeadingClass(Number(71)) == Ok(7)
    ensures LeadingClass(Number(10)) == Ok(1) && LeadingClass(Number(20)) == Ok(2)
  {
    assert Decimal(3) == "3" && Decimal(30) == "30";
    assert Decimal(7) == "7" && Decimal(71) == "71";
    assert Decimal(1) == "1" && Decimal(10) == "10";
    assert Decimal(2) == "2" && Decimal(20) == "20";
  }

  lemma ExampleClassified()
    ensures Classified([Number(30), Number(71), Number(10), Number(20)])
         == Ok([ClassCode(3, Number(30)), ClassCode(1, Number(10)), ClassCode(2, Number(20))])
  {
    var a, b, c, d := Number(30), Number(71), Number(10), Number(20);
    ExampleClasses();
    var x, y, z := ClassCode(3, a), ClassCode(1, c), ClassCode(2, d);
    assert Classified([]) == Ok([]);
    ClassifiedSnoc([], a);
    assert [] + [a] == [a] && [] + [x] == [x];
    assert Classified([a]) == Ok([x]);
    ClassifiedSnoc([a], b);
    assert [a] + [b] == [a, b];
    assert Classified([a, b]) == Ok([x]);
    ClassifiedSnoc([a, b], c);
    assert [a, b] + [c] == [a, b, c];
    assert [x] + [y] == [x, y];
    assert Classified([a, b, c]) == Ok([x, y]);
    ClassifiedSnoc([a, b, c], d);
    assert [a, b, c] + [d] == [a, b, c, d];
    assert [x, y] + [z] == [x, y, z];
  }

  lemma InsertFirst(x: ClassCode, ps: seq<ClassCode>)
    requires |ps| > 0 && CodeLe(x.code, ps[0].code)
    ensures Insert(x, ps) == [x] + ps
  {
  }

  lemma InsertLater(x: ClassCode, ps: seq<ClassCode>)
    requires |ps| > 0 && !CodeLe(x.code, ps[0].code)
    ensures Insert(x, ps) == [ps[0]] + Insert(x, ps[1..])
  {
  }

  lemma ExampleSortedTwo(x: ClassCode, y: ClassCode)
    requires x == ClassCode(3, Number(30)) && y == ClassCode(1, Number(10))
    ensures SortByCode([x, y]) == [y, x]
  {
    SortSnoc([], x);
    assert [] + [x] == [x];
    assert SortByCode([]) == [];
    assert SortByCode([x]) == Insert(x, []) == [x];
    SortSnoc([x], y);
    assert [x] + [y] == [x, y];
    InsertFirst(y, [x]);
    assert [y] + [x] == [y, x];
  }

  lemma ExampleInsertThird(x: ClassCode, y: ClassCode, z: ClassCode)
    requires x == ClassCode(3, Number(30)) && y == ClassCode(1, Number(10)) && z == ClassCode(2, Number(20))
    ensures Insert(z, [y, x]) == [y, z, x]
  {
    InsertLater(z, [y, x]);
    assert [y, x][1..] == [x];
    InsertFirst(z, [x]);
    assert [y] + ([z] + [x]) == [y, z, x];
  }

  lemma ExampleSorted()
    ensures SortByCode([ClassCode(3, Number(30)), ClassCode(1, Number(10)), ClassCode(2, Number(20))])
         == [ClassCode(1, Number(10)), ClassCode(2, Number(20)), ClassCode(3, Number(30))]
  {
    var x, y, z := ClassCode(3, Number(30)), ClassCode(1, Number(10)), ClassCode(2, Number(20));
    ExampleSortedTwo(x, y);
    SortSnoc([x, y], z);
    assert [x, y] + [z] == [x, y, z];
    ExampleInsertThird(x, y, z);
  }

  /** The worked case: a domain listing the codes 30, 71, 10 and 20 gives
      the wildcard and then (1, 10), (2, 20), (3, 30) in that order; 71 is
      of class 7 and is skipped. */
  const ExampleDomain := [CodedValue(Number(30), "c"), CodedValue(Number(71), "x"),
                          CodedValue(Number(10), "a"), CodedValue(Number(20), "b")]

  lemma WorkedExample()
    ensures SortedPairs(CodesOf(ExampleDomain))
         == Ok([ClassCode(1, Number(10)), ClassCode(2, Number(20)), ClassCode(3, Number(30))])
    ensures WellClassValues(ExampleDomain)
         == [AnyClassNullSubclass, Coded(1, Number(10)), Coded(2, Number(20)), Coded(3, Number(30))]
  {
    var ps := [ClassCode(3, Number(30)), ClassCode(1, Number(10)), ClassCode(2, Number(20))];
    ExampleDomainClassified();
    assert !Mixed(ps) by {
      assert forall i :: 0 <= i < |ps| ==> ps[i].code.Number?;
    }
    ExampleSorted();
    ExampleCombos(SortByCode(ps));
  }

  lemma ExampleDomainClassified()
    ensures Classified(CodesOf(ExampleDomain))
         == Ok([ClassCode(3, Number(30)), ClassCode(1, Number(10)), ClassCode(2, Number(20))])
  {
    assert CodesOf(ExampleDomain) == [Number(30), Number(71), Number(10), Number(20)];
    ExampleClassified();
  }

  lemma ExampleCombos(ps: seq<ClassCode>)
    requires ps == [ClassCode(1, Number(10)), ClassCode(2, Number(20)), ClassCode(3, Number(30))]
    ensures [AnyClassNullSubclass] + Combos(ps)
         == [AnyClassNullSubclass, Coded(1, Number(10)), Coded(2, Number(20)), Coded(3, Number(30))]
  {
    var r := [AnyClassNullSubclass] + Combos(ps);
    assert |r| == 4 && r[0] == AnyClassNullSubclass;
    assert r[1] == Coded(1, Number(10)) && r[2] == Coded(2, Number(20)) && r[3] == Coded(3, Number(30));
  }

  // ---------------------------------------------------------------- backend steps

  /** Other groups are as they were. */
  predicate OtherGroupsUnchanged(db: Geodatabase, db': Geodatabase, key: (string, string)) {
    db'.groups - {key} == db.groups - {key}
  }

  /** Nothing but groups and the trace changes, and the trace only grows. */
  predicate GroupsOnly(db: Geodatabase, db': Geodatabase) {
    db'.tables == db.tables && db'.domains == db.domains && db'.rules == db.rules && db'.faults == db.faults
    && db.trace <= db'.trace
  }

  /** A call raised something other than `ExecuteError`. */
  predicate RaisesOther(db: Geodatabase, c: Call) {
    c in db.faults && db.faults[c].OtherError?
  }

  /** `DeleteFieldGroup`; an `ExecuteError` (the group is missing) is tolerated. */
  method DropGroup(db: Geodatabase, path: string) returns (db': Geodatabase, r: Outcome<Error>)
    ensures GroupsOnly(db, db') && OtherGroupsUnchanged(db, db', (path, GroupName))
    ensures r.Fail? <==> RaisesOther(db, DeleteFieldGroup(path, GroupName))
    ensures DeleteFieldGroup(path, GroupName) !in db.faults ==> (path, GroupName) !in db'.groups
  {
    var removed := db.RemoveFieldGroup(path, GroupName);
    db' := removed.db;
    r := if removed.result.Err? && removed.result.error.OtherError? then Fail(removed.result.error) else Pass;
  }

  /** `CreateFieldGroup`; an `ExecuteError` (the group exists, the table is
      missing) is tolerated. */
  method MakeGroup(db: Geodatabase, path: string) returns (db': Geodatabase, r: Outcome<Error>)
    ensures GroupsOnly(db, db') && OtherGroupsUnchanged(db, db', (path, GroupName))
    ensures r.Fail? <==> RaisesOther(db, CreateFieldGroup(path, GroupName))
    ensures CreateFieldGroup(path, GroupName) !in db.faults && (path, GroupName) !in db.groups ==>
              db'.groups == if path in db.tables then db.groups[(path, GroupName) := FieldGroup(GroupFields, [])] else db.groups
  {
    var created := db.NewFieldGroup(path, GroupName, GroupFields);
    db' := created.db;
    r := if created.result.Err? && created.result.error.OtherError? then Fail(created.result.error) else Pass;
  }

  lemma OtherGroupsTrans(db0: Geodatabase, db1: Geodatabase, db2: Geodatabase, key: (string, string))
    requires OtherGroupsUnchanged(db0, db1, key) && OtherGroupsUnchanged(db1, db2, key)
    ensures OtherGroupsUnchanged(db0, db2, key)
  {
  }

  /** `DeleteFieldGroup` then `CreateFieldGroup`. */
  method ResetGroup(db: Geodatabase, path: string) returns (db': Geodatabase, r: Outcome<Error>)
    ensures GroupsOnly(db, db') && OtherGroupsUnchanged(db, db', (path, GroupName))
    ensures r.Fail? <==> RaisesOther(db, DeleteFieldGroup(path, GroupName)) || RaisesOther(db, CreateFieldGroup(path, GroupName))
    // when neither call is planned to fail, the group exists exactly when the
    // table does, and is fresh and empty
    ensures DeleteFieldGroup(path, GroupName) !in db.faults && CreateFieldGroup(path, GroupName) !in db.faults ==>
              ((path, GroupName) in db'.groups <==> path in db.tables)
              && ((path, GroupName) in db'.groups ==> db'.groups[(path, GroupName)] == FieldGroup(GroupFields, []))
  {
    db', r := DropGroup(db, path);
    if r.Fail? {
      return;
    }
    ghost var db1 := db';
    db', r := MakeGroup(db', path);
    OtherGroupsTrans(db, db1, db', (path, GroupName));
  }

  /** One `AddContingentValue`. */
  method AddValue(db: Geodatabase, path: string, v: Combination) returns (db': Geodatabase, r: Outcome<Error>)
    ensures GroupsOnly(db, db') && OtherGroupsUnchanged(db, db', (path, GroupName))
    ensures r.Pass? <==> (path, GroupName) in db.groups && AddContingentValue(path, GroupName, v) !in db.faults
    ensures r.Pass? ==>
      var g := db.groups[(path, GroupName)];
      db'.groups == db.groups[(path, GroupName) := g.(values := g.values + [v])]
  {
    var added := db.AddContingency(path, GroupName, v);
    db' := added.db;
    r := if added.result.Err? then Fail(added.result.error) else Pass;
  }

  /** One `AddContingentValue` per combination, in order; the first error aborts. */
  method AddValues(db: Geodatabase, path: string, combos: seq<Combination>) returns (db': Geodatabase, r: Outcome<Error>)
    ensures GroupsOnly(db, db') && OtherGroupsUnchanged(db, db', (path, GroupName))
    ensures r.Pass? <==> |combos| == 0 || ((path, GroupName) in db.groups
                          && forall i :: 0 <= i < |combos| ==> AddContingentValue(path, GroupName, combos[i]) !in db.faults)
    ensures r.Pass? && (path, GroupName) in db.groups ==>
      var g := db.groups[(path, GroupName)];
      db'.groups == db.groups[(path, GroupName) := g.(values := g.values + combos)]
  {
    db' := db;
    var i := 0;
    ghost var key := (path, GroupName);
    if key in db.groups {
      var g := db.groups[key];
      assert g.values + combos[..0] == g.values;
      assert db.groups[key := g.(values := g.values)] == db.groups;
    }
    while i < |combos|
      invariant 0 <= i <= |combos|
      invariant GroupsOnly(db, db') && OtherGroupsUnchanged(db, db', key)
      invariant i == 0 ==> db' == db
      invariant i > 0 ==> key in db.groups
      invariant forall j :: 0 <= j < i ==> AddContingentValue(path, GroupName, combos[j]) !in db.faults
      invariant key in db.groups ==>
        var g := db.groups[key];
        db'.groups == db.groups[key := g.(values := g.values + combos[..i])]
    {
      ghost var before := db';
      var added;
      db', added := AddValue(db', path, combos[i]);
      OtherGroupsTrans(db, before, db', key);
      if added.Fail? {
        if key in db.groups {
          assert key in before.groups;
        }
        return db', added;
      }
      assert key in db.groups;
      ghost var g := db.groups[key];
      assert before.groups[key] == g.(values := g.values + combos[..i]);
      assert combos[..i + 1] == combos[..i] + [combos[i]];
      assert g.values + combos[..i] + [combos[i]] == g.values + combos[..i + 1];
      i := i + 1;
    }
    assert combos[..i] == combos;
    r := Pass;
  }

  /** `arcpy.da.ListDomains` and the subclass domain's codes; a missing domain
      is the `IndexError` of `[...][0]`. */
  method SubclassCodes(db: Geodatabase) returns (db': Geodatabase, r: Result<seq<Value>, Error>)
    ensures db' == db.Log(ListDomains)
    ensures r.Ok? <==> ListDomains !in db.faults && SubclassDomain in db.domains
    ensures r.Ok? ==> r.value == CodesOf(db.domains[SubclassDomain])
  {
    var listed := db.ListAllDomains();
    db' := listed.db;
    if listed.result.Err? {
      return db', Err(listed.result.error);
    }
    if SubclassDomain !in listed.result.value {
      return db', Err(OtherError(IndexErrorMessage));
    }
    r := Ok(CodesOf(listed.result.value[SubclassDomain]));
  }

  /** The wildcard combination, then the loop, the sort and one
      `AddContingentValue` per tuple: the wildcard is added before any code is
      read, so a code that aborts the step leaves the wildcard behind. */
  method FillGroup(db: Geodatabase, path: string, codes: seq<Value>) returns (db': Geodatabase, r: Outcome<Error>)
    ensures GroupsOnly(db, db') && OtherGroupsUnchanged(db, db', (path, GroupName))
    ensures SortedPairs(codes).Err? ==> r.Fail?
    ensures r.Pass? ==>
      && (path, GroupName) in db.groups && SortedPairs(codes).Ok?
      && var g := db.groups[(path, GroupName)];
         db'.groups == db.groups[(path, GroupName) :=
           g.(values := g.values + ([AnyClassNullSubclass] + Combos(SortedPairs(codes).value)))]
    ensures (SortedPairs(codes).Err? && (path, GroupName) in db.groups
             && AddContingentValue(path, GroupName, AnyClassNullSubclass) !in db.faults) ==>
      var g := db.groups[(path, GroupName)];
      db'.groups == db.groups[(path, GroupName) := g.(values := g.values + [AnyClassNullSubclass])]
  {
    var added;
    db', added := AddValue(db, path, AnyClassNullSubclass);
    if added.Fail? {
      return db', added;
    }
    var pairs := ContingentPairs(codes);
    if pairs.Err? {
      return db', Fail(pairs.error);
    }
    ghost var db1 := db';
    db', r := AddValues(db', path, Combos(pairs.value));
    OtherGroupsTrans(db, db1, db', (path, GroupName));
    if r.Pass? {
      ghost var g := db.groups[(path, GroupName)];
      assert g.values + [AnyClassNullSubclass] + Combos(pairs.value)
          == g.values + ([AnyClassNullSubclass] + Combos(pairs.value));
    }
  }

  /** `arcpy.da.ListDomains`, the subclass domain's codes and the filling of
      the group. */
  method FillFromDomain(db: Geodatabase, path: string) returns (db': Geodatabase, r: Outcome<Error>)
    ensures GroupsOnly(db, db') && OtherGroupsUnchanged(db, db', (path, GroupName))
    ensures SubclassDomain !in db.domains ==> r.Fail?
    ensures SubclassDomain in db.domains && SortedPairs(CodesOf(db.domains[SubclassDomain])).Err? ==> r.Fail?
    ensures r.Pass? ==>
      && (path, GroupName) in db.groups
      && SubclassDomain in db.domains && SortedPairs(CodesOf(db.domains[SubclassDomain])).Ok?
      && var g := db.groups[(path, GroupName)];
         db'.groups == db.groups[(path, GroupName) := g.(values := g.values + WellClassValues(db.domains[SubclassDomain]))]
  {
    var codes;
    db', codes := SubclassCodes(db);
    if codes.Err? {
      return db', Fail(codes.error);
    }
    ghost var db1 := db';
    db', r := FillGroup(db', path, codes.value);
    OtherGroupsTrans(db, db1, db', (path, GroupName));
  }

  /** `create_contingencies`. */
  method CreateContingencies(db: Geodatabase, sde: string) returns (db': Geodatabase, r: Outcome<Error>)
    ensures GroupsOnly(db, db') && OtherGroupsUnchanged(db, db', (PathJoin(sde, WellTable), GroupName))
    // a missing domain, an unreadable class or codes of both kinds abort the step
    ensures SubclassDomain !in db.domains ==> r.Fail?
    ensures SubclassDomain in db.domains && SortedPairs(CodesOf(db.domains[SubclassDomain])).Err? ==> r.Fail?
    // on success the group ends with the wildcard and the sorted combinations ...
    ensures r.Pass? ==>
      var key := (PathJoin(sde, WellTable), GroupName);
      && SubclassDomain in db.domains && SortedPairs(CodesOf(db.domains[SubclassDomain])).Ok?
      && key in db'.groups
      && var vs := db'.groups[key].values;
         var ws := WellClassValues(db.domains[SubclassDomain]);
         |ws| <= |vs| && vs[|vs| - |ws|..] == ws
    // ... and holds nothing else when the group was dropped and recreated
    ensures (r.Pass? && DeleteFieldGroup(PathJoin(sde, WellTable), GroupName) !in db.faults
             && CreateFieldGroup(PathJoin(sde, WellTable), GroupName) !in db.faults) ==>
      db'.groups[(PathJoin(sde, WellTable), GroupName)]
        == FieldGroup(GroupFields, WellClassValues(db.domains[SubclassDomain]))
  {
    var path := PathJoin(sde, WellTable);
    var key := (path, GroupName);
    var reset;
    db', reset := ResetGroup(db, path);
    if reset.Fail? {
      return db', Fail(reset.error);
    }
    ghost var db1 := db';
    db', r := FillFromDomain(db', path);
    OtherGroupsTrans(db, db1, db', key);
    if r.Pass? {
      ghost var g := db1.groups[key];
      ghost var ws := WellClassValues(db.domains[SubclassDomain]);
      assert db'.groups[key].values == g.values + ws;
      assert db'.groups[key].values[|g.values|..] == ws;
      if DeleteFieldGroup(path, GroupName) !in db.faults && CreateFieldGroup(path, GroupName) !in db.faults {
        assert g == FieldGroup(GroupFields, []);
        assert [] + ws == ws;
      }
    }
  }
}
