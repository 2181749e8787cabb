/**
 The parser sorts the fields of an object literal by name; what the literal
 evaluates to does not depend on it.
 */
module ObjectLiterals {
  import opened Query
  import opened Evaluation
  import opened Syntax
  import opened RoundTrip
  import opened Ordering

  ghost predicate DistinctFields(fields: seq<ObjectField>) {
    forall i, j :: 0 <= i < j < |fields| ==> fields[i].name != fields[j].name
  }

  /** With distinct names every field gives its own entry. */
  lemma {:induction false} EntriesAreFields(read: Reader, vars: map<string, Datum>, fields: seq<ObjectField>)
    requires DistinctFields(fields)
    ensures forall n :: n in EvaluateFields(read, vars, fields) ==> exists f :: f in fields && f.name == n
    ensures forall f :: f in fields ==>
              f.name in EvaluateFields(read, vars, fields) &&
              EvaluateFields(read, vars, fields)[f.name] == Evaluate(read, vars, f.value)
  {
    hide Evaluate;
    if fields != [] {
      var init, last := fields[..|fields| - 1], fields[|fields| - 1];
      EntriesAreFields(read, vars, init);
      assert fields == init + [last];
    }
  }

  /** Fields in whatever order, with distinct names, evaluate alike. */
  lemma OrderDoesNotMatter(read: Reader, vars: map<string, Datum>, fields: seq<ObjectField>, others: seq<ObjectField>)
    requires DistinctFields(fields) && DistinctFields(others) && multiset(fields) == multiset(others)
    ensures Evaluate(read, vars, ObjectLit(fields)) == Evaluate(read, vars, ObjectLit(others))
  {
    hide EvaluateFields;
    EntriesAreFields(read, vars, fields);
    EntriesAreFields(read, vars, others);
    var x, y := EvaluateFields(read, vars, fields), EvaluateFields(read, vars, others);
    forall n
      ensures n in x <==> n in y
      ensures n in x ==> n in y && x[n] == y[n]
    {
      if n in x {
        var f :| f in fields && f.name == n;
        assert f in multiset(others);
      }
      if n in y {
        var f :| f in others && f.name == n;
        assert f in multiset(fields);
      }
    }
    assert x == y;
  }

  lemma NamesStayDistinct(fields: seq<ObjectField>, others: seq<ObjectField>)
    requires DistinctFields(fields) && multiset(fields) == multiset(others)
    ensures DistinctFields(others)
  {
    forall i, j | 0 <= i < j < |others|
      ensures others[i].name != others[j].name
    {
      assert others[i] in multiset(fields) && others[j] in multiset(fields);
      var k :| 0 <= k < |fields| && fields[k] == others[i];
      var m :| 0 <= m < |fields| && fields[m] == others[j];
      if k == m {
        TwiceAt(others, i, j);
        OnceAt(fields, k);
      }
    }
  }

  lemma Without(s: seq<ObjectField>, i: nat)
    requires i < |s|
    ensures multiset(s) == multiset(s[..i] + s[i + 1..]) + multiset{s[i]}
  {
    assert s == s[..i] + [s[i]] + s[i + 1..];
  }

  lemma TwiceAt(s: seq<ObjectField>, i: nat, j: nat)
    requires i < j < |s| && s[i] == s[j]
    ensures multiset(s)[s[i]] >= 2
  {
    Without(s, j);
    var rest := s[..j] + s[j + 1..];
    assert rest[i] == s[i];
    assert s[i] in multiset(rest);
  }

  lemma OnceAt(s: seq<ObjectField>, k: nat)
    requires DistinctFields(s) && k < |s|
    ensures multiset(s)[s[k]] == 1
  {
    Without(s, k);
    var rest := s[..k] + s[k + 1..];
    forall j | 0 <= j < |rest|
      ensures rest[j] != s[k]
    {
      assert rest[j] == s[if j < k then j else j + 1];
    }
    assert s[k] !in multiset(rest);
  }

  /** Sorting the fields, however it is done, keeps what the literal evaluates to if no name is repeated. */
  lemma SortingKeepsValue(read: Reader, vars: map<string, Datum>, fields: seq<ObjectField>, sorted: seq<ObjectField>)
    requires DistinctFields(fields) && multiset(sorted) == multiset(fields)
    ensures Evaluate(read, vars, ObjectLit(sorted)) == Evaluate(read, vars, ObjectLit(fields))
  {
    NamesStayDistinct(fields, sorted);
    OrderDoesNotMatter(read, vars, fields, sorted);
  }

  /** What the parser makes of an object literal evaluates like the fields as they are written. */
  lemma ParsedKeepsValue(read: Reader, vars: map<string, Datum>, ts: seq<Token>, constOnly: bool)
    requires Sees(ts, '{') && ParseFields(ts[1..], constOnly).Ok? &&
             DistinctFields(ParseFields(ts[1..], constOnly).value)
    ensures ParseLiteral(ts, constOnly).Ok?
    ensures Evaluate(read, vars, ParseLiteral(ts, constOnly).value) ==
            Evaluate(read, vars, ObjectLit(ParseFields(ts[1..], constOnly).value))
  {
    hide Evaluate, SortFields, ParseFields;
    var fields := ParseFields(ts[1..], constOnly).value;
    SortIsSorted(fields);
    SortingKeepsValue(read, vars, fields, SortFields(fields));
  }

  /** With a name repeated it can change: both orders are sorted. */
  lemma RepeatedNameDependsOnOrder() returns (read: Reader, fields: seq<ObjectField>, sorted: seq<ObjectField>)
    ensures multiset(sorted) == multiset(fields) && InOrder(fields) && InOrder(sorted)
    ensures Evaluate(read, map[], ObjectLit(sorted)) != Evaluate(read, map[], ObjectLit(fields))
  {
    read := (_, text) => Scalar(text);
    var one, two := ObjectField("a", BasicLit(IntLit, "1")), ObjectField("a", BasicLit(IntLit, "2"));
    StringTotal("a", "a");
    fields, sorted := [one, two], [two, one];
    assert fields[..1] == [one] && sorted[..1] == [two];
    assert EvaluateFields(read, map[], fields)["a"] == Scalar("2");
    assert EvaluateFields(read, map[], sorted)["a"] == Scalar("1");
    assert "1" != "2";
  }
}
