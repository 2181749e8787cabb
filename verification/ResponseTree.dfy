/**
 The tree of everything an execution attempts.  A field whose resolution fails,
 that yields nil where the type forbids it, or that panics while it is written
 stays in the tree with its cause; the response is what is left when those
 fields are dropped, and the error list visits the tree bottom up.
 */
module ResponseTree {
  import opened Wrappers
  import opened Query
  import opened ExecutionSpec

  /** `Broken` stands where writing panicked, and ends the list it is in. */
  datatype Tree =
    | Object(missing: seq<Error>, fields: seq<FieldTree>)
    | Array(elements: seq<Tree>)
    | Text(text: string)
    | Null
    | Absent
    | Broken

  datatype FieldTree = FieldTree(alias: string, path: seq<string>, value: Tree, failure: Option<Cause>)

  predicate HasBroken(t: Tree) {
    match t
    case Array(elements) => exists e :: e in elements && HasBroken(e)
    case Broken => true
    case _ => false
  }

  predicate EndsBroken(elements: seq<Tree>) {
    elements != [] && HasBroken(elements[|elements| - 1])
  }

  // ----- building the tree -----

  function BuildObject(env: Env, n: nat, path: seq<string>, parent: Value, parentType: Type, sels: seq<Selection>): Tree
    requires Bounded(env.fragments, sels, n)
    decreases n, 1
  {
    var occs := Flatten(env, n, parent, parentType, sels);
    FlattenWithin(env, n, parent, parentType, sels);
    CollectedWithin(env, occs, n);
    Object(Missing(env, path, occs), BuildFields(env, n, path, Collected(env, occs)))
  }

  ghost predicate SelectedWithin(env: Env, f: Selected, n: nat) {
    f.field.schema.Some? && Bounded(env.fragments, f.selections, n)
  }

  ghost predicate AllSelectedWithin(env: Env, fields: seq<Selected>, n: nat) {
    forall k :: 0 <= k < |fields| ==> SelectedWithin(env, fields[k], n)
  }

  lemma {:induction false} CollectAllWithin(env: Env, fields: seq<Selected>, occs: seq<Occurrence>, n: nat)
    requires AllSelectedWithin(env, fields, n)
    requires forall o :: o in occs ==> FieldWithin(env, o, n)
    ensures AllSelectedWithin(env, CollectAll(env, fields, occs), n)
    decreases |occs|
  {
    if occs != [] {
      var more := WithOneMore(env, fields, occs[0]);
      assert FieldWithin(env, occs[0], n);
      forall k | 0 <= k < |more|
        ensures SelectedWithin(env, more[k], n)
      {
        assert k < |fields| ==> SelectedWithin(env, fields[k], n);
      }
      CollectAllWithin(env, more, occs[1..], n);
    }
  }

  /** The fields of a selection set that nests at most `n` deep. */
  ghost predicate FieldsWithin(env: Env, fields: seq<Selected>, n: nat) {
    if n == 0 then fields == [] else AllSelectedWithin(env, fields, n - 1)
  }

  lemma CollectedWithin(env: Env, occs: seq<Occurrence>, n: nat)
    requires AllWithin(env, occs, n)
    ensures FieldsWithin(env, Collected(env, occs), n)
  {
    if n > 0 {
      CollectAllWithin(env, [], occs, n - 1);
    }
  }

  function BuildFields(env: Env, n: nat, path: seq<string>, fields: seq<Selected>): (r: seq<FieldTree>)
    requires FieldsWithin(env, fields, n)
    ensures |r| == |fields|
    decreases n, 0
  {
    if n == 0 then []
    else seq(|fields|, k requires 0 <= k < |fields| => BuildField(env, n - 1, path, fields[k]))
  }

  function BuildField(env: Env, n: nat, path: seq<string>, f: Selected): FieldTree
    requires SelectedWithin(env, f, n)
    decreases n, 4
  {
    var here := path + [f.field.alias];
    match f.outcome
    case Fails(message) => FieldTree(f.field.alias, here, Absent, Some(ResolverFailed(message)))
    case Yields(value) =>
      var nonNull := f.field.schema.value.NonNullOf?;
      if value.Nil? then
        FieldTree(f.field.alias, here, Null, if nonNull then Some(NilForNonNull) else None)
      else
        var content := BuildContent(env, n, here, Unwrapped(f.field.schema.value), value, f.selections);
        FieldTree(f.field.alias, here, content, if HasBroken(content) then Some(Panicked) else None)
  }

  function Unwrapped(t: Type): Type {
    if t.NonNullOf? then t.of else t
  }

  /** The value of a field: a leaf if nothing is selected under it, else a list of objects or an object. */
  function BuildContent(env: Env, n: nat, path: seq<string>, t: Type, v: Value, sels: seq<Selection>): Tree
    requires Bounded(env.fragments, sels, n)
    decreases n, 3
  {
    if sels == [] then BuildLeaf(env, t, v)
    else
      match t
      case ListOf(of) => BuildList(env, n, path, of, v, sels)
      case Named(name) => if env.composite(name) then BuildObject(env, n, path, v, t, sels) else Absent
      case NonNullOf(_) => Absent
  }

  function BuildList(env: Env, n: nat, path: seq<string>, elementType: Type, v: Value, sels: seq<Selection>): Tree
    requires Bounded(env.fragments, sels, n)
    decreases n, 2, elementType, v
  {
    if v.Slice? then Array(BuildElements(env, n, path, elementType, v.elements, sels)) else Broken
  }

  /** The elements up to and including the first on which writing panics. */
  function BuildElements(env: Env, n: nat, path: seq<string>, elementType: Type, vs: seq<Value>,
                         sels: seq<Selection>): seq<Tree>
    requires Bounded(env.fragments, sels, n)
    decreases n, 2, elementType, vs
  {
    if vs == [] then []
    else
      var before := BuildElements(env, n, path, elementType, vs[..|vs| - 1], sels);
      if EndsBroken(before) then before
      else
        before + [BuildElement(env, n, path, elementType, vs[|vs| - 1], sels)]
  }

  function BuildElement(env: Env, n: nat, path: seq<string>, elementType: Type, v: Value, sels: seq<Selection>): Tree
    requires Bounded(env.fragments, sels, n)
    decreases n, 2, elementType, v
  {
    if elementType.ListOf? then BuildList(env, n, path, elementType.of, v, sels)
    else BuildObject(env, n, path, v, elementType, sels)
  }

  function BuildLeaf(env: Env, t: Type, v: Value): Tree
    decreases t, 0
  {
    match t
    case NonNullOf(of) => if env.brokenElement(v) then Broken else BuildLeaf(env, of, v)
    case Named(name) =>
      (match env.marshal(v, name)
       case Some(text) => Text(text)
       case None => Broken)
    case ListOf(of) => BuildLeafList(env, of, of, v)
  }

  /** A list of leaves.  Whatever the nesting, each innermost element is written as a `leafType`, the
      element type of the outermost list. */
  function BuildLeafList(env: Env, leafType: Type, elementType: Type, v: Value): Tree
    decreases leafType, 1, elementType, v
  {
    if v.Slice? then Array(BuildLeaves(env, leafType, elementType, v.elements)) else Broken
  }

  function BuildLeaves(env: Env, leafType: Type, elementType: Type, vs: seq<Value>): seq<Tree>
    decreases leafType, 1, elementType, vs
  {
    if vs == [] then []
    else
      var before := BuildLeaves(env, leafType, elementType, vs[..|vs| - 1]);
      if EndsBroken(before) then before
      else
        before + [BuildLeafElement(env, leafType, elementType, vs[|vs| - 1])]
  }

  function BuildLeafElement(env: Env, leafType: Type, elementType: Type, v: Value): Tree
    decreases leafType, 1, elementType, v
  {
    if elementType.ListOf? then BuildLeafList(env, leafType, elementType.of, v) else BuildLeaf(env, leafType, v)
  }

  // ----- reading off the response and the errors -----

  datatype Json =
    | JsonObject(members: seq<(string, Json)>)
    | JsonArray(items: seq<Json>)
    | JsonText(text: string)
    | JsonNull
    | JsonAbsent

  /** The response: the tree without its failed fields. */
  function Pruned(t: Tree): Json {
    match t
    case Object(_, fields) => JsonObject(Survivors(fields))
    case Array(elements) => JsonArray(PrunedAll(elements))
    case Text(text) => JsonText(text)
    case Null => JsonNull
    case Absent => JsonAbsent
    case Broken => JsonAbsent
  }

  function PrunedAll(elements: seq<Tree>): seq<Json> {
    if elements == [] then []
    else PrunedAll(elements[..|elements| - 1]) + [Pruned(elements[|elements| - 1])]
  }

  function Survivors(fields: seq<FieldTree>): seq<(string, Json)> {
    if fields == [] then []
    else
      var last := fields[|fields| - 1];
      Survivors(fields[..|fields| - 1]) + (if last.failure.None? then [(last.alias, Pruned(last.value))] else [])
  }

  function Render(j: Json): string {
    match j
    case JsonObject(members) => "{" + RenderMembers(members) + "}"
    case JsonArray(items) => "[" + RenderItems(items) + "]"
    case JsonText(text) => text
    case JsonNull => "null"
    case JsonAbsent => ""
  }

  function RenderMember(m: (string, Json)): string {
    Key(m.0) + Render(m.1)
  }

  function Key(alias: string): string {
    "\"" + alias + "\":"
  }

  /** The members, with a comma before every one but the first. */
  function RenderMembers(members: seq<(string, Json)>): string {
    if members == [] then ""
    else
      var n := |members| - 1;
      RenderMembers(members[..n]) + (if n > 0 then "," else "") + RenderMember(members[n])
  }

  function RenderItems(items: seq<Json>): string {
    if items == [] then ""
    else
      var n := |items| - 1;
      RenderItems(items[..n]) + (if n > 0 then "," else "") + Render(items[n])
  }

  /** Every error of the tree, those inside a field before the field's own. */
  function Errors(t: Tree): seq<Error> {
    match t
    case Object(missing, fields) => missing + FieldsErrors(fields)
    case Array(elements) => ElementsErrors(elements)
    case _ => []
  }

  function FieldsErrors(fields: seq<FieldTree>): seq<Error> {
    if fields == [] then []
    else
      var last := fields[|fields| - 1];
      FieldsErrors(fields[..|fields| - 1]) + Errors(last.value) + Failure(last)
  }

  function Failure(f: FieldTree): seq<Error> {
    match f.failure
    case Some(cause) => [Error(f.path, cause)]
    case None => []
  }

  function ElementsErrors(elements: seq<Tree>): seq<Error> {
    if elements == [] then []
    else ElementsErrors(elements[..|elements| - 1]) + Errors(elements[|elements| - 1])
  }

  // ----- one step at a time -----

  lemma {:induction false} PrunedLength(elements: seq<Tree>)
    ensures |PrunedAll(elements)| == |elements|
  {
    if elements != [] {
      PrunedLength(elements[..|elements| - 1]);
    }
  }

  lemma OneMoreElement(elements: seq<Tree>, e: Tree)
    ensures RenderItems(PrunedAll(elements + [e])) ==
            RenderItems(PrunedAll(elements)) + (if elements == [] then "" else ",") + Render(Pruned(e))
    ensures ElementsErrors(elements + [e]) == ElementsErrors(elements) + Errors(e)
  {
    PrunedLength(elements);
    assert (elements + [e])[..|elements|] == elements;
    var items := PrunedAll(elements + [e]);
    assert items[..|elements|] == PrunedAll(elements);
  }

  lemma OneMoreMember(members: seq<(string, Json)>, m: (string, Json))
    ensures RenderMembers(members + [m]) ==
            RenderMembers(members) + (if members == [] then "" else ",") + Key(m.0) + Render(m.1)
  {
    assert (members + [m])[..|members|] == members;
    var before := RenderMembers(members) + (if members == [] then "" else ",");
    assert before + (Key(m.0) + Render(m.1)) == before + Key(m.0) + Render(m.1);
  }

  lemma OneMoreField(fields: seq<FieldTree>, f: FieldTree)
    ensures Survivors(fields + [f]) ==
            if f.failure.Some? then Survivors(fields) else Survivors(fields) + [(f.alias, Pruned(f.value))]
    ensures FieldsErrors(fields + [f]) == FieldsErrors(fields) + Errors(f.value) + Failure(f)
  {
    assert (fields + [f])[..|fields|] == fields;
  }

  /** Once an element is broken no further element is attempted. */
  lemma {:induction false} BrokenStays(env: Env, n: nat, path: seq<string>, elementType: Type, vs: seq<Value>,
                                       sels: seq<Selection>, i: nat)
    requires Bounded(env.fragments, sels, n) && i <= |vs|
    requires EndsBroken(BuildElements(env, n, path, elementType, vs[..i], sels))
    ensures BuildElements(env, n, path, elementType, vs, sels) ==
            BuildElements(env, n, path, elementType, vs[..i], sels)
  {
    if i < |vs| {
      assert vs[..|vs| - 1][..i] == vs[..i];
      BrokenStays(env, n, path, elementType, vs[..|vs| - 1], sels, i);
    } else {
      assert vs[..i] == vs;
    }
  }

  lemma {:induction false} BrokenLeafStays(env: Env, leafType: Type, elementType: Type, vs: seq<Value>, i: nat)
    requires i <= |vs| && EndsBroken(BuildLeaves(env, leafType, elementType, vs[..i]))
    ensures BuildLeaves(env, leafType, elementType, vs) == BuildLeaves(env, leafType, elementType, vs[..i])
  {
    if i < |vs| {
      assert vs[..|vs| - 1][..i] == vs[..i];
      BrokenLeafStays(env, leafType, elementType, vs[..|vs| - 1], i);
    } else {
      assert vs[..i] == vs;
    }
  }

  /** Only the last element of a list can be broken. */
  lemma {:induction false} OnlyLastBroken(env: Env, n: nat, path: seq<string>, elementType: Type, vs: seq<Value>,
                                          sels: seq<Selection>)
    requires Bounded(env.fragments, sels, n)
    ensures var es := BuildElements(env, n, path, elementType, vs, sels); HasBroken(Array(es)) <==> EndsBroken(es)
  {
    if vs != [] {
      OnlyLastBroken(env, n, path, elementType, vs[..|vs| - 1], sels);
    }
  }

  lemma {:induction false} OnlyLastLeafBroken(env: Env, leafType: Type, elementType: Type, vs: seq<Value>)
    ensures var es := BuildLeaves(env, leafType, elementType, vs); HasBroken(Array(es)) <==> EndsBroken(es)
  {
    if vs != [] {
      OnlyLastLeafBroken(env, leafType, elementType, vs[..|vs| - 1]);
    }
  }

  /** Leaves report no errors of their own. */
  lemma {:induction false} LeafErrors(env: Env, t: Type, v: Value)
    ensures Errors(BuildLeaf(env, t, v)) == []
    decreases t, 0
  {
    match t
    case NonNullOf(of) => LeafErrors(env, of, v);
    case Named(_) =>
    case ListOf(of) =>
      if v.Slice? {
        LeavesErrors(env, of, of, v.elements);
      }
  }

  lemma {:induction false} LeavesErrors(env: Env, leafType: Type, elementType: Type, vs: seq<Value>)
    ensures ElementsErrors(BuildLeaves(env, leafType, elementType, vs)) == []
    decreases leafType, 1, elementType, vs
  {
    hide PrunedAll, RenderItems, Render, Pruned, HasBroken, BuildLeafElement, Errors;
    if vs != [] {
      var v, before := vs[|vs| - 1], BuildLeaves(env, leafType, elementType, vs[..|vs| - 1]);
      LeavesErrors(env, leafType, elementType, vs[..|vs| - 1]);
      LeafElementErrors(env, leafType, elementType, v);
      OneMoreElement(before, BuildLeafElement(env, leafType, elementType, v));
    }
  }

  lemma {:induction false} LeafElementErrors(env: Env, leafType: Type, elementType: Type, v: Value)
    ensures Errors(BuildLeafElement(env, leafType, elementType, v)) == []
    decreases leafType, 1, elementType, v
  {
    if !elementType.ListOf? {
      LeafErrors(env, leafType, v);
    } else if v.Slice? {
      LeavesErrors(env, leafType, elementType.of, v.elements);
    }
  }

  // ----- the same steps on the buffer -----

  /** Writing one more element of a list, after a comma unless it is the first. */
  lemma ElementText(start: string, elements: seq<Tree>, e: Tree)
    ensures (start + RenderItems(PrunedAll(elements)) + (if elements == [] then "" else ",")) + Render(Pruned(e)) ==
            start + RenderItems(PrunedAll(elements + [e]))
  {
    hide PrunedAll, RenderItems, Render, Pruned;
    OneMoreElement(elements, e);
    var items, comma, text := RenderItems(PrunedAll(elements)), if elements == [] then "" else ",", Render(Pruned(e));
    assert (start + items + comma) + text == start + (items + comma + text);
  }

  /** Writing one more field of an object, if it does not fail. */
  lemma FieldText(start: string, fields: seq<FieldTree>, f: FieldTree)
    requires f.failure.None?
    ensures (start + RenderMembers(Survivors(fields)) + (if Survivors(fields) == [] then "" else ",")) + Key(f.alias) +
            Render(Pruned(f.value)) ==
            start + RenderMembers(Survivors(fields + [f]))
  {
    hide Survivors, RenderMembers, Render, Pruned, Key;
    OneMoreField(fields, f);
    OneMoreMember(Survivors(fields), (f.alias, Pruned(f.value)));
    var members, comma := RenderMembers(Survivors(fields)), if Survivors(fields) == [] then "" else ",";
    var key, text := Key(f.alias), Render(Pruned(f.value));
    assert (start + members + comma) + key + text == start + (members + comma + key + text);
  }

  lemma FieldErrorList(base: seq<Error>, fields: seq<FieldTree>, f: FieldTree)
    ensures base + FieldsErrors(fields) + Errors(f.value) + Failure(f) == base + FieldsErrors(fields + [f])
  {
    OneMoreField(fields, f);
    var before, inner, own := FieldsErrors(fields), Errors(f.value), Failure(f);
    assert base + before + inner + own == base + (before + inner + own);
  }

  lemma ElementErrorList(base: seq<Error>, elements: seq<Tree>, e: Tree)
    ensures base + ElementsErrors(elements) + Errors(e) == base + ElementsErrors(elements + [e])
  {
    OneMoreElement(elements, e);
    var before, inner := ElementsErrors(elements), Errors(e);
    assert base + before + inner == base + (before + inner);
  }

  /** An object is what its collected fields write, after the errors of collecting them. */
  lemma ObjectIsItsFields(env: Env, n: nat, path: seq<string>, parent: Value, parentType: Type, sels: seq<Selection>)
    requires Bounded(env.fragments, sels, n)
    ensures var occs, t := Flatten(env, n, parent, parentType, sels),
            BuildObject(env, n, path, parent, parentType, sels);
            && FieldsWithin(env, Collected(env, occs), n)
            && Render(Pruned(t)) == Render(JsonObject(Survivors(BuildFields(env, n, path, Collected(env, occs)))))
            && Errors(t) == Missing(env, path, occs) + FieldsErrors(BuildFields(env, n, path, Collected(env, occs)))
  {
    FlattenWithin(env, n, parent, parentType, sels);
    CollectedWithin(env, Flatten(env, n, parent, parentType, sels), n);
  }

  lemma ObjectText(start: string, members: seq<(string, Json)>)
    ensures (start + "{") + RenderMembers(members) + "}" == start + Render(JsonObject(members))
  {
    assert (start + "{") + RenderMembers(members) + "}" == start + ("{" + RenderMembers(members) + "}");
  }

  /** Writing something that is not a slice as a list panics at once. */
  lemma NotASlice(env: Env, n: nat, path: seq<string>, elementType: Type, leafType: Type, v: Value,
                  sels: seq<Selection>)
    requires Bounded(env.fragments, sels, n) && !v.Slice?
    ensures BuildList(env, n, path, elementType, v, sels) == BuildLeafList(env, leafType, elementType, v) == Broken
    ensures HasBroken(Broken) && Errors(Broken) == []
  {
  }

  lemma NothingYet(env: Env, n: nat, path: seq<string>, leafType: Type, elementType: Type, sels: seq<Selection>)
    requires Bounded(env.fragments, sels, n)
    ensures BuildElements(env, n, path, elementType, [], sels) == [] &&
            BuildLeaves(env, leafType, elementType, []) == []
    ensures PrunedAll([]) == [] && RenderItems([]) == "" && ElementsErrors([]) == []
    ensures Survivors([]) == [] && RenderMembers([]) == "" && FieldsErrors([]) == []
  {
  }

  lemma NextElement(env: Env, n: nat, path: seq<string>, elementType: Type, vs: seq<Value>, sels: seq<Selection>,
                    i: nat)
    requires Bounded(env.fragments, sels, n) && i < |vs|
    requires !EndsBroken(BuildElements(env, n, path, elementType, vs[..i], sels))
    ensures BuildElements(env, n, path, elementType, vs[..i + 1], sels) ==
            BuildElements(env, n, path, elementType, vs[..i], sels) +
            [BuildElement(env, n, path, elementType, vs[i], sels)]
  {
    assert vs[..i + 1][..i] == vs[..i];
  }

  lemma NextLeaf(env: Env, leafType: Type, elementType: Type, vs: seq<Value>, i: nat)
    requires i < |vs| && !EndsBroken(BuildLeaves(env, leafType, elementType, vs[..i]))
    ensures BuildLeaves(env, leafType, elementType, vs[..i + 1]) ==
            BuildLeaves(env, leafType, elementType, vs[..i]) + [BuildLeafElement(env, leafType, elementType, vs[i])]
  {
    assert vs[..i + 1][..i] == vs[..i];
  }

  /** Leaves that end broken at some point make the whole list broken, and leaves that do not make it whole. */
  lemma ArrayOfLeaves(env: Env, leafType: Type, elementType: Type, v: Value, i: nat)
    requires v.Slice? && i <= |v.elements|
    requires i < |v.elements| ==> EndsBroken(BuildLeaves(env, leafType, elementType, v.elements[..i]))
    ensures var es, t := BuildLeaves(env, leafType, elementType, v.elements[..i]),
            BuildLeafList(env, leafType, elementType, v);
            && t == Array(es) && (HasBroken(t) <==> EndsBroken(es)) && Errors(t) == []
            && Render(Pruned(t)) == "[" + RenderItems(PrunedAll(es)) + "]"
  {
    if i < |v.elements| {
      BrokenLeafStays(env, leafType, elementType, v.elements, i);
    } else {
      assert v.elements[..i] == v.elements;
    }
    OnlyLastLeafBroken(env, leafType, elementType, v.elements);
    LeavesErrors(env, leafType, elementType, v.elements);
  }

  lemma ArrayOfObjects(env: Env, n: nat, path: seq<string>, elementType: Type, v: Value, sels: seq<Selection>, i: nat)
    requires Bounded(env.fragments, sels, n) && v.Slice? && i <= |v.elements|
    requires i < |v.elements| ==> EndsBroken(BuildElements(env, n, path, elementType, v.elements[..i], sels))
    ensures var es, t := BuildElements(env, n, path, elementType, v.elements[..i], sels),
            BuildList(env, n, path, elementType, v, sels);
            && t == Array(es) && (HasBroken(t) <==> EndsBroken(es)) && Errors(t) == ElementsErrors(es)
            && Render(Pruned(t)) == "[" + RenderItems(PrunedAll(es)) + "]"
  {
    if i < |v.elements| {
      BrokenStays(env, n, path, elementType, v.elements, sels, i);
    } else {
      assert v.elements[..i] == v.elements;
    }
    OnlyLastBroken(env, n, path, elementType, v.elements, sels);
  }

  // ----- what the tree says about failures -----

  /** A field is left out of the response exactly if it failed; then the error list has the errors inside
      it, directly followed by its own. */
  lemma {:induction false} FailureIsReported(fields: seq<FieldTree>, k: nat)
    returns (before: seq<Error>, after: seq<Error>)
    requires k < |fields|
    ensures FieldsErrors(fields) == before + (Errors(fields[k].value) + Failure(fields[k])) + after
    ensures before == FieldsErrors(fields[..k])
    ensures |Survivors(fields[..k + 1])| == |Survivors(fields[..k])| + (if fields[k].failure.None? then 1 else 0)
  {
    assert fields[..k + 1][..k] == fields[..k];
    var last := fields[|fields| - 1];
    if k == |fields| - 1 {
      before, after := FieldsErrors(fields[..k]), [];
      assert fields[..k + 1] == fields;
      assert before + Errors(last.value) + Failure(last) == before + (Errors(last.value) + Failure(last)) + [];
    } else {
      var rest := fields[..|fields| - 1];
      assert rest[..k] == fields[..k] && rest[..k + 1] == fields[..k + 1];
      before, after := FailureIsReported(rest, k);
      var own := Errors(fields[k].value) + Failure(fields[k]);
      assert (before + own + after) + Errors(last.value) + Failure(last) ==
             before + own + (after + Errors(last.value) + Failure(last));
      after := after + Errors(last.value) + Failure(last);
    }
  }
}
