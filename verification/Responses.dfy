/**
 What a response has to be, told from the outcomes of the resolvers and the types
 of the fields: which fields it has, where it has null, and which errors go with it.
 */
module Responses {
  import opened Wrappers
  import opened Query
  import opened ExecutionSpec
  import opened ResponseTree

  // ----- when writing panics -----

  function Nullable(t: Type): Type {
    match t
    case NonNullOf(of) => of
    case _ => t
  }

  /** Writing a leaf panics: something that is no list stands where a list should be, or a value cannot be encoded,
      or an element is broken. */
  ghost predicate LeafPanics(env: Env, t: Type, v: Value)
    decreases t, 0
  {
    match t
    case NonNullOf(of) => env.brokenElement(v) || LeafPanics(env, of, v)
    case Named(name) => env.marshal(v, name).None?
    case ListOf(of) => LeavesPanic(env, of, of, v)
  }

  ghost predicate LeavesPanic(env: Env, leafType: Type, elementType: Type, v: Value)
    decreases leafType, 1, elementType, v, 1
  {
    v.Slice? ==> exists e :: e in v.elements && LeafElementPanics(env, leafType, elementType, e)
  }

  ghost predicate LeafElementPanics(env: Env, leafType: Type, elementType: Type, v: Value)
    decreases leafType, 1, elementType, v, 0
  {
    if elementType.ListOf? then LeavesPanic(env, leafType, elementType.of, v) else LeafPanics(env, leafType, v)
  }

  /** Writing a list of objects panics only where there is no list. */
  ghost predicate ListPanics(elementType: Type, v: Value)
    decreases elementType, v
  {
    v.Slice? ==> elementType.ListOf? && exists e :: e in v.elements && ListPanics(elementType.of, e)
  }

  ghost predicate ContentPanics(env: Env, t: Type, v: Value, leaf: bool) {
    if leaf then LeafPanics(env, t, v) else t.ListOf? && ListPanics(t.of, v)
  }

  // ----- what becomes of a field -----

  /** A field fails if its resolver does, if it is nil where its type forbids that, or if writing it panics. */
  ghost predicate FailsWith(env: Env, f: Selected, cause: Cause)
    requires f.field.schema.Some?
  {
    var t := f.field.schema.value;
    match f.outcome
    case Fails(message) => cause == ResolverFailed(message)
    case Yields(value) =>
      if value.Nil? then t.NonNullOf? && cause == NilForNonNull
      else cause == Panicked && ContentPanics(env, Nullable(t), value, f.selections == [])
  }

  ghost predicate Succeeds(env: Env, f: Selected) {
    f.field.schema.Some? && forall cause :: !FailsWith(env, f, cause)
  }

  ghost function Successful(env: Env, fields: seq<Selected>): seq<Selected> {
    if fields == [] then []
    else
      var last := fields[|fields| - 1];
      Successful(env, fields[..|fields| - 1]) + if Succeeds(env, last) then [last] else []
  }

  // ----- what the response is -----

  /** An object has a member for each collected field that does not fail, in that order, and no others. */
  ghost predicate ObjectFits(env: Env, n: nat, parent: Value, parentType: Type, sels: seq<Selection>, j: Json)
    requires Bounded(env.fragments, sels, n)
    decreases n, 1
  {
    var fields := Successful(env, Collected(env, Flatten(env, n, parent, parentType, sels)));
    && j.JsonObject? && |j.members| == |fields|
    && forall i :: 0 <= i < |fields| ==>
         n > 0 && SelectedWithin(env, fields[i], n - 1) && MemberFits(env, n - 1, fields[i], j.members[i])
  }

  /** A member is null exactly if the value is nil, which the type has to allow. */
  ghost predicate MemberFits(env: Env, n: nat, f: Selected, m: (string, Json))
    requires SelectedWithin(env, f, n)
    decreases n, 4
  {
    && m.0 == f.field.alias && f.outcome.Yields?
    && if f.outcome.value.Nil? then !f.field.schema.value.NonNullOf? && m.1 == JsonNull
       else ContentFits(env, n, Nullable(f.field.schema.value), f.outcome.value, f.selections, m.1)
  }

  ghost predicate ContentFits(env: Env, n: nat, t: Type, v: Value, sels: seq<Selection>, j: Json)
    requires Bounded(env.fragments, sels, n)
    decreases n, 3
  {
    if sels == [] then LeafFits(env, t, v, j)
    else
      match t
      case ListOf(of) => ListFits(env, n, of, v, sels, j)
      case Named(name) => if env.composite(name) then ObjectFits(env, n, v, t, sels, j) else j == JsonAbsent
      case NonNullOf(_) => j == JsonAbsent
  }

  ghost predicate ListFits(env: Env, n: nat, elementType: Type, v: Value, sels: seq<Selection>, j: Json)
    requires Bounded(env.fragments, sels, n)
    decreases n, 2, elementType, v, 1
  {
    && v.Slice? && j.JsonArray? && |j.items| == |v.elements|
    && forall i :: 0 <= i < |v.elements| ==> ElementFits(env, n, elementType, v.elements[i], sels, j.items[i])
  }

  ghost predicate ElementFits(env: Env, n: nat, elementType: Type, v: Value, sels: seq<Selection>, j: Json)
    requires Bounded(env.fragments, sels, n)
    decreases n, 2, elementType, v, 0
  {
    if elementType.ListOf? then ListFits(env, n, elementType.of, v, sels, j)
    else ObjectFits(env, n, v, elementType, sels, j)
  }

  ghost predicate LeafFits(env: Env, t: Type, v: Value, j: Json)
    decreases t, 0
  {
    match t
    case NonNullOf(of) => !env.brokenElement(v) && LeafFits(env, of, v, j)
    case Named(name) => j.JsonText? && env.marshal(v, name) == Some(j.text)
    case ListOf(of) => LeavesFit(env, of, of, v, j)
  }

  /** As the code has it, every innermost element is written with the element type of the outermost list. */
  ghost predicate LeavesFit(env: Env, leafType: Type, elementType: Type, v: Value, j: Json)
    decreases leafType, 1, elementType, v, 1
  {
    && v.Slice? && j.JsonArray? && |j.items| == |v.elements|
    && forall i :: 0 <= i < |v.elements| ==> LeafElementFits(env, leafType, elementType, v.elements[i], j.items[i])
  }

  ghost predicate LeafElementFits(env: Env, leafType: Type, elementType: Type, v: Value, j: Json)
    decreases leafType, 1, elementType, v, 0
  {
    if elementType.ListOf? then LeavesFit(env, leafType, elementType.of, v, j) else LeafFits(env, leafType, v, j)
  }

  // ----- which errors go with it -----

  /** An error of an object: a field that nobody resolves, or an error of one of its fields. */
  ghost predicate ErrorIn(env: Env, n: nat, path: seq<string>, parent: Value, parentType: Type, sels: seq<Selection>,
                          e: Error)
    requires Bounded(env.fragments, sels, n)
    decreases n, 1
  {
    var occs := Flatten(env, n, parent, parentType, sels);
    || e in Unresolved(env, path, occs)
    || exists f :: f in Collected(env, occs) && n > 0 && SelectedWithin(env, f, n - 1) &&
                   ErrorOf(env, n - 1, path, f, e)
  }

  /** The field fails, or there is an error inside its value. */
  ghost predicate ErrorOf(env: Env, n: nat, path: seq<string>, f: Selected, e: Error)
    requires SelectedWithin(env, f, n)
    decreases n, 4
  {
    var here := path + [f.field.alias];
    || (e.path == here && FailsWith(env, f, e.cause))
    || (f.outcome.Yields? && !f.outcome.value.Nil? && f.selections != [] &&
        ErrorInside(env, n, here, Nullable(f.field.schema.value), f.outcome.value, f.selections, e))
  }

  ghost predicate ErrorInside(env: Env, n: nat, path: seq<string>, t: Type, v: Value, sels: seq<Selection>, e: Error)
    requires Bounded(env.fragments, sels, n)
    decreases n, 3
  {
    match t
    case ListOf(of) => ErrorInList(env, n, path, of, v, sels, e)
    case Named(name) => env.composite(name) && ErrorIn(env, n, path, v, t, sels, e)
    case NonNullOf(_) => false
  }

  /** The elements are written up to the first that panics. */
  ghost predicate ErrorInList(env: Env, n: nat, path: seq<string>, elementType: Type, v: Value, sels: seq<Selection>,
                              e: Error)
    requires Bounded(env.fragments, sels, n)
    decreases n, 2, elementType, v, 1
  {
    v.Slice? && exists i ::
      && 0 <= i < |v.elements| && ErrorInElement(env, n, path, elementType, v.elements[i], sels, e)
      && forall j :: 0 <= j < i ==> !ElementPanics(elementType, v.elements[j])
  }

  ghost predicate ElementPanics(elementType: Type, v: Value) {
    elementType.ListOf? && ListPanics(elementType.of, v)
  }

  ghost predicate ErrorInElement(env: Env, n: nat, path: seq<string>, elementType: Type, v: Value,
                                 sels: seq<Selection>, e: Error)
    requires Bounded(env.fragments, sels, n)
    decreases n, 2, elementType, v, 0
  {
    if elementType.ListOf? then ErrorInList(env, n, path, elementType.of, v, sels, e)
    else ErrorIn(env, n, path, v, elementType, sels, e)
  }

  // ----- lists up to the first element that breaks -----

  lemma {:induction false} PrunedAt(elements: seq<Tree>)
    ensures |PrunedAll(elements)| == |elements|
    ensures forall i :: 0 <= i < |elements| ==> PrunedAll(elements)[i] == Pruned(elements[i])
  {
    hide Pruned;
    if elements != [] {
      PrunedAt(elements[..|elements| - 1]);
    }
  }

  lemma {:induction false} ElementsAt(env: Env, n: nat, path: seq<string>, elementType: Type, vs: seq<Value>,
                                      sels: seq<Selection>)
    requires Bounded(env.fragments, sels, n)
    ensures (var es := BuildElements(env, n, path, elementType, vs, sels);
             && |es| <= |vs|
             && (forall i :: 0 <= i < |es| ==> es[i] == BuildElement(env, n, path, elementType, vs[i], sels))
             && (forall i :: 0 <= i < |es| - 1 ==> !HasBroken(es[i]))
             && (|es| < |vs| ==> EndsBroken(es)))
  {
    hide BuildElement, HasBroken, Bounded;
    if vs != [] {
      ElementsAt(env, n, path, elementType, vs[..|vs| - 1], sels);
    }
  }

  lemma {:induction false} LeavesAt(env: Env, leafType: Type, elementType: Type, vs: seq<Value>)
    ensures (var es := BuildLeaves(env, leafType, elementType, vs);
             && |es| <= |vs|
             && (forall i :: 0 <= i < |es| ==> es[i] == BuildLeafElement(env, leafType, elementType, vs[i]))
             && (forall i :: 0 <= i < |es| - 1 ==> !HasBroken(es[i]))
             && (|es| < |vs| ==> EndsBroken(es)))
  {
    hide BuildLeafElement, HasBroken;
    if vs != [] {
      LeavesAt(env, leafType, elementType, vs[..|vs| - 1]);
    }
  }

  // ----- leaves -----

  lemma {:induction false} LeafIff(env: Env, t: Type, v: Value, j: Json)
    ensures HasBroken(BuildLeaf(env, t, v)) <==> LeafPanics(env, t, v)
    ensures LeafFits(env, t, v, j) <==> !LeafPanics(env, t, v) && j == Pruned(BuildLeaf(env, t, v))
    decreases t, 0
  {
    match t
    case NonNullOf(of) => LeafIff(env, of, v, j);
    case Named(_) =>
    case ListOf(of) => LeavesIff(env, of, of, v, j);
  }

  lemma {:induction false} LeafElementIff(env: Env, leafType: Type, elementType: Type, v: Value, j: Json)
    ensures HasBroken(BuildLeafElement(env, leafType, elementType, v)) <==>
            LeafElementPanics(env, leafType, elementType, v)
    ensures LeafElementFits(env, leafType, elementType, v, j) <==>
            !LeafElementPanics(env, leafType, elementType, v) &&
            j == Pruned(BuildLeafElement(env, leafType, elementType, v))
    decreases leafType, 1, elementType, v, 0
  {
    if elementType.ListOf? {
      LeavesIff(env, leafType, elementType.of, v, j);
    } else {
      LeafIff(env, leafType, v, j);
    }
  }

  /** `es` is what was written of `all`: the elements up to the first that is broken. */
  predicate UpToBroken(all: seq<Tree>, es: seq<Tree>) {
    && es <= all && (forall i :: 0 <= i < |es| - 1 ==> !HasBroken(es[i])) && (|es| < |all| ==> EndsBroken(es))
  }

  /** Such a list is broken exactly if some element is, and then nothing fits it. */
  lemma ListDecided(all: seq<Tree>, es: seq<Tree>, panics: seq<bool>)
    requires UpToBroken(all, es) && |panics| == |all|
    requires forall i :: 0 <= i < |all| ==> (panics[i] <==> HasBroken(all[i]))
    ensures HasBroken(Array(es)) <==> exists i :: 0 <= i < |panics| && panics[i]
    ensures !HasBroken(Array(es)) ==> es == all
  {
    if |es| < |all| {
      assert panics[|es| - 1];
      assert es[|es| - 1] in es;
    }
    if i :| 0 <= i < |panics| && panics[i] && es == all {
      assert all[i] in es;
    }
  }

  lemma ItemsDecided(all: seq<Tree>, es: seq<Tree>, items: seq<Json>, fits: seq<bool>)
    requires UpToBroken(all, es) && |items| == |all| == |fits|
    requires forall i :: 0 <= i < |all| ==> (fits[i] <==> !HasBroken(all[i]) && items[i] == Pruned(all[i]))
    ensures (forall i :: 0 <= i < |fits| ==> fits[i]) <==> !HasBroken(Array(es)) && items == PrunedAll(es)
  {
    hide HasBroken, Pruned, PrunedAll;
    ListDecided(all, es, seq(|all|, i requires 0 <= i < |all| => HasBroken(all[i])));
    PrunedAt(es);
    if forall i :: 0 <= i < |fits| ==> fits[i] {
      assert es == all;
      assert items == PrunedAll(es);
    }
    if !HasBroken(Array(es)) && items == PrunedAll(es) {
      forall i | 0 <= i < |fits|
        ensures fits[i]
      {
        assert items[i] == Pruned(all[i]);
      }
    }
  }

  function AllLeaves(env: Env, leafType: Type, elementType: Type, vs: seq<Value>): seq<Tree> {
    seq(|vs|, i requires 0 <= i < |vs| => BuildLeafElement(env, leafType, elementType, vs[i]))
  }

  lemma LeavesUpTo(env: Env, leafType: Type, elementType: Type, vs: seq<Value>)
    ensures UpToBroken(AllLeaves(env, leafType, elementType, vs), BuildLeaves(env, leafType, elementType, vs))
  {
    hide BuildLeafElement, HasBroken, BuildLeaves;
    LeavesAt(env, leafType, elementType, vs);
  }

  lemma {:induction false} LeavesIff(env: Env, leafType: Type, elementType: Type, v: Value, j: Json)
    ensures HasBroken(BuildLeafList(env, leafType, elementType, v)) <==> LeavesPanic(env, leafType, elementType, v)
    ensures LeavesFit(env, leafType, elementType, v, j) <==>
            !LeavesPanic(env, leafType, elementType, v) && j == Pruned(BuildLeafList(env, leafType, elementType, v))
    decreases leafType, 1, elementType, v, 1
  {
    hide BuildLeafElement, LeafElementPanics, LeafElementFits, BuildLeaves, HasBroken, PrunedAll;
    NothingToPrune();
    if v.Slice? {
      var vs, all := v.elements, AllLeaves(env, leafType, elementType, v.elements);
      forall i | 0 <= i < |vs|
        ensures LeafElementPanics(env, leafType, elementType, vs[i]) <==> HasBroken(all[i])
      {
        LeafElementIff(env, leafType, elementType, vs[i], j);
      }
      LeavesBroken(env, leafType, elementType, v);
      if j.JsonArray? && |j.items| == |vs| {
        forall i | 0 <= i < |vs|
          ensures LeafElementFits(env, leafType, elementType, vs[i], j.items[i]) <==>
                  !HasBroken(all[i]) && j.items[i] == Pruned(all[i])
        {
          LeafElementIff(env, leafType, elementType, vs[i], j.items[i]);
        }
        LeavesWhole(env, leafType, elementType, v, j);
      } else {
        LeavesUpTo(env, leafType, elementType, vs);
        ListDecided(all, BuildLeaves(env, leafType, elementType, vs),
                    seq(|vs|, i requires 0 <= i < |vs| => HasBroken(all[i])));
        PrunedAt(BuildLeaves(env, leafType, elementType, vs));
      }
    }
  }

  lemma LeavesBroken(env: Env, leafType: Type, elementType: Type, v: Value)
    requires v.Slice? && forall i :: 0 <= i < |v.elements| ==>
               (LeafElementPanics(env, leafType, elementType, v.elements[i]) <==>
                HasBroken(AllLeaves(env, leafType, elementType, v.elements)[i]))
    ensures HasBroken(BuildLeafList(env, leafType, elementType, v)) <==> LeavesPanic(env, leafType, elementType, v)
  {
    hide BuildLeafElement, LeafElementPanics, BuildLeaves, HasBroken;
    var vs := v.elements;
    LeavesUpTo(env, leafType, elementType, vs);
    var panics := seq(|vs|, i requires 0 <= i < |vs| => LeafElementPanics(env, leafType, elementType, vs[i]));
    ListDecided(AllLeaves(env, leafType, elementType, vs), BuildLeaves(env, leafType, elementType, vs), panics);
    assert forall i :: 0 <= i < |vs| ==> vs[i] in vs;
    assert forall i :: 0 <= i < |vs| ==> panics[i] == LeafElementPanics(env, leafType, elementType, vs[i]);
  }

  lemma LeavesWhole(env: Env, leafType: Type, elementType: Type, v: Value, j: Json)
    requires v.Slice? && j.JsonArray? && |j.items| == |v.elements| && forall i :: 0 <= i < |v.elements| ==>
               var leaf := AllLeaves(env, leafType, elementType, v.elements)[i];
               (LeafElementFits(env, leafType, elementType, v.elements[i], j.items[i]) <==>
                !HasBroken(leaf) && j.items[i] == Pruned(leaf))
    ensures LeavesFit(env, leafType, elementType, v, j) <==>
            !HasBroken(BuildLeafList(env, leafType, elementType, v)) &&
            j == Pruned(BuildLeafList(env, leafType, elementType, v))
  {
    hide BuildLeafElement, LeafElementFits, BuildLeaves, HasBroken, PrunedAll;
    var vs := v.elements;
    LeavesUpTo(env, leafType, elementType, vs);
    var fits :=
      seq(|vs|, i requires 0 <= i < |vs| => LeafElementFits(env, leafType, elementType, vs[i], j.items[i]));
    ItemsDecided(AllLeaves(env, leafType, elementType, vs), BuildLeaves(env, leafType, elementType, vs), j.items, fits);
    assert forall i :: 0 <= i < |vs| ==> fits[i] == LeafElementFits(env, leafType, elementType, vs[i], j.items[i]);
  }

  lemma NothingToPrune()
    ensures Pruned(Null) == JsonNull && Pruned(Absent) == JsonAbsent && !HasBroken(Null) && !HasBroken(Absent)
    ensures HasBroken(Broken)
  {
  }

  // ----- objects -----

  /** What the tree has for a field: its failure, or the one member that fits. */
  ghost predicate Matches(env: Env, n: nat, path: seq<string>, f: Selected, t: FieldTree) {
    && SelectedWithin(env, f, n)
    && t.path == path + [f.field.alias]
    && (forall cause :: FailsWith(env, f, cause) <==> t.failure == Some(cause))
    && (forall m :: MemberFits(env, n, f, m) <==> t.failure.None? && m == (t.alias, Pruned(t.value)))
  }

  lemma {:induction false} MembersDecided(env: Env, n: nat, path: seq<string>, fields: seq<Selected>,
                                          ts: seq<FieldTree>)
    requires |ts| == |fields| && forall k :: 0 <= k < |fields| ==> Matches(env, n, path, fields[k], ts[k])
    ensures (var kept := Successful(env, fields);
             && |Survivors(ts)| == |kept|
             && forall i :: 0 <= i < |kept| ==>
                  && SelectedWithin(env, kept[i], n)
                  && forall m :: MemberFits(env, n, kept[i], m) <==> m == Survivors(ts)[i])
  {
    hide FailsWith, MemberFits, Pruned, SelectedWithin;
    if fields != [] {
      var last := |fields| - 1;
      MembersDecided(env, n, path, fields[..last], ts[..last]);
      assert Matches(env, n, path, fields[last], ts[last]);
      KeptOrNot(env, n, path, fields[last], ts[last]);
    }
  }

  lemma KeptOrNot(env: Env, n: nat, path: seq<string>, f: Selected, t: FieldTree)
    requires Matches(env, n, path, f, t)
    ensures Succeeds(env, f) <==> t.failure.None?
  {
    hide FailsWith, MemberFits, Pruned;
    assert SelectedWithin(env, f, n);
    if t.failure.Some? {
      assert FailsWith(env, f, t.failure.value);
    }
  }

  lemma {:induction false} ObjectIff(env: Env, n: nat, path: seq<string>, parent: Value, parentType: Type,
                                     sels: seq<Selection>, j: Json)
    requires Bounded(env.fragments, sels, n)
    ensures ObjectFits(env, n, parent, parentType, sels, j) <==>
            j == Pruned(BuildObject(env, n, path, parent, parentType, sels))
    decreases n, 1
  {
    hide Flatten, Collected, BuildField, Survivors, Successful, MemberFits, SelectedWithin;
    var fields := Collected(env, Flatten(env, n, parent, parentType, sels));
    FlattenWithin(env, n, parent, parentType, sels);
    CollectedWithin(env, Flatten(env, n, parent, parentType, sels), n);
    var ts := BuildFields(env, n, path, fields);
    if n > 0 {
      forall k | 0 <= k < |fields|
        ensures Matches(env, n - 1, path, fields[k], ts[k])
      {
        FieldIff(env, n - 1, path, fields[k]);
      }
      MembersDecided(env, n - 1, path, fields, ts);
      var kept := Successful(env, fields);
      if j.JsonObject? && |j.members| == |kept| {
        assert (forall i :: 0 <= i < |kept| ==> MemberFits(env, n - 1, kept[i], j.members[i])) <==>
               j.members == Survivors(ts);
      }
    } else {
      NoFields(env);
    }
  }

  lemma NoFields(env: Env)
    ensures Successful(env, []) == [] && Survivors([]) == []
  {
  }

  lemma {:induction false} FieldIff(env: Env, n: nat, path: seq<string>, f: Selected)
    requires SelectedWithin(env, f, n)
    ensures Matches(env, n, path, f, BuildField(env, n, path, f))
    decreases n, 4
  {
    hide BuildContent, ContentFits, ContentPanics, HasBroken, Pruned, Bounded;
    var t := BuildField(env, n, path, f);
    NothingToPrune();
    if f.outcome.Yields? && !f.outcome.value.Nil? {
      var v, inside := f.outcome.value, Nullable(f.field.schema.value);
      ContentIff(env, n, t.path, inside, v, f.selections, JsonNull);
      forall m: (string, Json)
        ensures ContentFits(env, n, inside, v, f.selections, m.1) <==> !HasBroken(t.value) && m.1 == Pruned(t.value)
      {
        ContentIff(env, n, t.path, inside, v, f.selections, m.1);
      }
    }
  }

  lemma {:induction false} ContentIff(env: Env, n: nat, path: seq<string>, t: Type, v: Value, sels: seq<Selection>,
                                      j: Json)
    requires Bounded(env.fragments, sels, n)
    ensures HasBroken(BuildContent(env, n, path, t, v, sels)) <==> ContentPanics(env, t, v, sels == [])
    ensures ContentFits(env, n, t, v, sels, j) <==>
            !ContentPanics(env, t, v, sels == []) && j == Pruned(BuildContent(env, n, path, t, v, sels))
    decreases n, 3
  {
    hide BuildLeaf, LeafPanics, LeafFits, Bounded, ListPanics, BuildList, ListFits, BuildObject, ObjectFits;
    if sels == [] {
      LeafIff(env, t, v, j);
    } else if t.ListOf? {
      ListIff(env, n, path, t.of, v, sels, j);
    } else if t.Named? && env.composite(t.name) {
      ObjectIff(env, n, path, v, t, sels, j);
      ObjectIsWhole(env, n, path, v, t, sels);
    }
  }

  lemma ObjectIsWhole(env: Env, n: nat, path: seq<string>, parent: Value, parentType: Type, sels: seq<Selection>)
    requires Bounded(env.fragments, sels, n)
    ensures !HasBroken(BuildObject(env, n, path, parent, parentType, sels))
  {
  }

  lemma {:induction false} ElementIff(env: Env, n: nat, path: seq<string>, elementType: Type, v: Value,
                                      sels: seq<Selection>, j: Json)
    requires Bounded(env.fragments, sels, n)
    ensures HasBroken(BuildElement(env, n, path, elementType, v, sels)) <==> ElementPanics(elementType, v)
    ensures ElementFits(env, n, elementType, v, sels, j) <==>
            !ElementPanics(elementType, v) && j == Pruned(BuildElement(env, n, path, elementType, v, sels))
    decreases n, 2, elementType, v, 0
  {
    hide Bounded, ListPanics, BuildList, ListFits, BuildObject, ObjectFits, HasBroken, Pruned;
    if elementType.ListOf? {
      ListIff(env, n, path, elementType.of, v, sels, j);
    } else {
      ObjectIff(env, n, path, v, elementType, sels, j);
      ObjectIsWhole(env, n, path, v, elementType, sels);
    }
  }

  function AllElements(env: Env, n: nat, path: seq<string>, elementType: Type, vs: seq<Value>, sels: seq<Selection>)
    : seq<Tree>
    requires Bounded(env.fragments, sels, n)
  {
    seq(|vs|, i requires 0 <= i < |vs| => BuildElement(env, n, path, elementType, vs[i], sels))
  }

  lemma ElementsUpTo(env: Env, n: nat, path: seq<string>, elementType: Type, vs: seq<Value>, sels: seq<Selection>)
    requires Bounded(env.fragments, sels, n)
    ensures UpToBroken(AllElements(env, n, path, elementType, vs, sels),
                       BuildElements(env, n, path, elementType, vs, sels))
  {
    hide BuildElement, HasBroken, BuildElements, Bounded;
    ElementsAt(env, n, path, elementType, vs, sels);
  }

  lemma {:induction false} ListIff(env: Env, n: nat, path: seq<string>, elementType: Type, v: Value,
                                   sels: seq<Selection>, j: Json)
    requires Bounded(env.fragments, sels, n)
    ensures HasBroken(BuildList(env, n, path, elementType, v, sels)) <==> ListPanics(elementType, v)
    ensures ListFits(env, n, elementType, v, sels, j) <==>
            !ListPanics(elementType, v) && j == Pruned(BuildList(env, n, path, elementType, v, sels))
    decreases n, 2, elementType, v, 1
  {
    hide BuildElement, ElementFits, BuildElements, HasBroken, PrunedAll, Bounded;
    NothingToPrune();
    if v.Slice? {
      var vs, es := v.elements, BuildElements(env, n, path, elementType, v.elements, sels);
      var all := AllElements(env, n, path, elementType, vs, sels);
      ElementsUpTo(env, n, path, elementType, vs, sels);
      forall i | 0 <= i < |vs|
        ensures ElementPanics(elementType, vs[i]) <==> HasBroken(all[i])
      {
        ElementIff(env, n, path, elementType, vs[i], sels, j);
      }
      var panics := seq(|vs|, i requires 0 <= i < |vs| => ElementPanics(elementType, vs[i]));
      ListDecided(all, es, panics);
      assert forall i :: 0 <= i < |vs| ==> vs[i] in vs && panics[i] == ElementPanics(elementType, vs[i]);
      if j.JsonArray? && |j.items| == |vs| {
        forall i | 0 <= i < |vs|
          ensures ElementFits(env, n, elementType, vs[i], sels, j.items[i]) <==>
                  !HasBroken(all[i]) && j.items[i] == Pruned(all[i])
        {
          ElementIff(env, n, path, elementType, vs[i], sels, j.items[i]);
        }
        var fits :=
          seq(|vs|, i requires 0 <= i < |vs| => ElementFits(env, n, elementType, vs[i], sels, j.items[i]));
        ItemsDecided(all, es, j.items, fits);
        assert forall i :: 0 <= i < |vs| ==> fits[i] == ElementFits(env, n, elementType, vs[i], sels, j.items[i]);
      } else {
        PrunedAt(es);
      }
    }
  }

  // ----- errors -----

  lemma {:induction false} InFieldsErrors(ts: seq<FieldTree>, e: Error)
    ensures e in FieldsErrors(ts) <==>
            exists k :: 0 <= k < |ts| && (e in Errors(ts[k].value) || e in Failure(ts[k]))
  {
    hide Errors, Failure;
    if ts != [] {
      var n := |ts| - 1;
      var init := ts[..n];
      InFieldsErrors(init, e);
      if e in FieldsErrors(init) {
        var k :| 0 <= k < n && (e in Errors(init[k].value) || e in Failure(init[k]));
        assert ts[k] == init[k];
      }
      if k :| 0 <= k < |ts| && (e in Errors(ts[k].value) || e in Failure(ts[k])) && k < n {
        assert init[k] == ts[k];
      }
    }
  }

  lemma {:induction false} InElementsErrors(es: seq<Tree>, e: Error)
    ensures e in ElementsErrors(es) <==> exists k :: 0 <= k < |es| && e in Errors(es[k])
  {
    hide Errors;
    if es != [] {
      var n := |es| - 1;
      var init := es[..n];
      InElementsErrors(init, e);
      if e in ElementsErrors(init) {
        var k :| 0 <= k < n && e in Errors(init[k]);
        assert es[k] == init[k];
      }
      if k :| 0 <= k < |es| && e in Errors(es[k]) && k < n {
        assert init[k] == es[k];
      }
    }
  }

  /** The errors the tree of an object has. */
  lemma {:induction false} ErrorsIff(env: Env, n: nat, path: seq<string>, parent: Value, parentType: Type,
                                     sels: seq<Selection>, e: Error)
    requires Bounded(env.fragments, sels, n)
    ensures e in Errors(BuildObject(env, n, path, parent, parentType, sels)) <==>
            ErrorIn(env, n, path, parent, parentType, sels, e)
    decreases n, 1
  {
    hide Flatten, CollectAll, MissingAll, BuildField, ErrorOf, SelectedWithin, Errors, Unresolved, Failure;
    ObjectIsItsFields(env, n, path, parent, parentType, sels);
    var occs := Flatten(env, n, parent, parentType, sels);
    var fields := Collected(env, occs);
    var ts := BuildFields(env, n, path, fields);
    MissingIsUnresolved(env, path, occs);
    InFieldsErrors(ts, e);
    if n > 0 {
      forall k | 0 <= k < |fields|
        ensures SelectedWithin(env, fields[k], n - 1)
        ensures e in Errors(ts[k].value) || e in Failure(ts[k]) <==> ErrorOf(env, n - 1, path, fields[k], e)
      {
        FieldErrorIff(env, n - 1, path, fields[k], e);
      }
      if k :| 0 <= k < |ts| && (e in Errors(ts[k].value) || e in Failure(ts[k])) {
        assert fields[k] in fields;
      }
      if f :| f in fields && SelectedWithin(env, f, n - 1) && ErrorOf(env, n - 1, path, f, e) {
        var k :| 0 <= k < |fields| && fields[k] == f;
        assert e in Errors(ts[k].value) || e in Failure(ts[k]);
      }
    }
  }

  lemma {:induction false} FieldErrorIff(env: Env, n: nat, path: seq<string>, f: Selected, e: Error)
    requires SelectedWithin(env, f, n)
    ensures (var t := BuildField(env, n, path, f);
             e in Errors(t.value) || e in Failure(t) <==> ErrorOf(env, n, path, f, e))
    decreases n, 4
  {
    hide BuildContent, ErrorInside, FailsWith, MemberFits, Pruned, Bounded, HasBroken;
    FieldIff(env, n, path, f);
    NothingInside();
    var t := BuildField(env, n, path, f);
    if f.outcome.Yields? && !f.outcome.value.Nil? {
      ContentErrorIff(env, n, t.path, Nullable(f.field.schema.value), f.outcome.value, f.selections, e);
    }
    if FailsWith(env, f, e.cause) {
      assert t.failure == Some(e.cause);
    }
    if t.failure.Some? {
      assert FailsWith(env, f, t.failure.value);
    }
  }

  lemma NothingInside()
    ensures Errors(Null) == [] && Errors(Absent) == [] && Errors(Broken) == []
  {
  }

  lemma {:induction false} ContentErrorIff(env: Env, n: nat, path: seq<string>, t: Type, v: Value,
                                           sels: seq<Selection>, e: Error)
    requires Bounded(env.fragments, sels, n)
    ensures e in Errors(BuildContent(env, n, path, t, v, sels)) <==>
            sels != [] && ErrorInside(env, n, path, t, v, sels, e)
    decreases n, 3
  {
    hide BuildLeaf, Bounded, BuildList, BuildObject, ErrorIn, ErrorInList;
    if sels == [] {
      LeafErrors(env, t, v);
    } else if t.ListOf? {
      ListErrorIff(env, n, path, t.of, v, sels, e);
    } else if t.Named? && env.composite(t.name) {
      ErrorsIff(env, n, path, v, t, sels, e);
    }
  }

  lemma {:induction false} ElementErrorIff(env: Env, n: nat, path: seq<string>, elementType: Type, v: Value,
                                           sels: seq<Selection>, e: Error)
    requires Bounded(env.fragments, sels, n)
    ensures e in Errors(BuildElement(env, n, path, elementType, v, sels)) <==>
            ErrorInElement(env, n, path, elementType, v, sels, e)
    decreases n, 2, elementType, v, 0
  {
    hide Bounded, BuildList, BuildObject, ErrorIn, ErrorInList, Errors;
    if elementType.ListOf? {
      ListErrorIff(env, n, path, elementType.of, v, sels, e);
    } else {
      ErrorsIff(env, n, path, v, elementType, sels, e);
    }
  }

  /** What was written of a list is what comes up to the first broken element. */
  lemma WrittenIff(all: seq<Tree>, es: seq<Tree>, i: nat)
    requires UpToBroken(all, es) && i < |all|
    ensures i < |es| <==> forall j :: 0 <= j < i ==> !HasBroken(all[j])
  {
    hide HasBroken;
    if |es| <= i {
      assert HasBroken(all[|es| - 1]);
    }
  }

  lemma ErrorsDecided(all: seq<Tree>, es: seq<Tree>, panics: seq<bool>, inside: seq<bool>, e: Error)
    requires UpToBroken(all, es) && |panics| == |inside| == |all|
    requires forall i :: 0 <= i < |all| ==> (panics[i] <==> HasBroken(all[i])) && (inside[i] <==> e in Errors(all[i]))
    ensures e in ElementsErrors(es) <==>
            exists i :: 0 <= i < |inside| && inside[i] && forall j :: 0 <= j < i ==> !panics[j]
  {
    hide HasBroken, Errors, ElementsErrors;
    InElementsErrors(es, e);
    if e in ElementsErrors(es) {
      var i :| 0 <= i < |es| && e in Errors(es[i]);
      WrittenIff(all, es, i);
      assert inside[i];
    }
    if i :| 0 <= i < |inside| && inside[i] && forall j :: 0 <= j < i ==> !panics[j] {
      WrittenIff(all, es, i);
      assert es[i] == all[i];
    }
  }

  lemma {:induction false} ListErrorIff(env: Env, n: nat, path: seq<string>, elementType: Type, v: Value,
                                        sels: seq<Selection>, e: Error)
    requires Bounded(env.fragments, sels, n)
    ensures e in Errors(BuildList(env, n, path, elementType, v, sels)) <==>
            ErrorInList(env, n, path, elementType, v, sels, e)
    decreases n, 2, elementType, v, 1
  {
    hide BuildElement, ErrorInElement, BuildElements, HasBroken, Bounded, ElementPanics;
    if v.Slice? {
      var vs, es := v.elements, BuildElements(env, n, path, elementType, v.elements, sels);
      var all := AllElements(env, n, path, elementType, vs, sels);
      ElementsUpTo(env, n, path, elementType, vs, sels);
      forall i | 0 <= i < |vs|
        ensures e in Errors(all[i]) <==> ErrorInElement(env, n, path, elementType, vs[i], sels, e)
        ensures HasBroken(all[i]) <==> ElementPanics(elementType, vs[i])
      {
        ElementErrorIff(env, n, path, elementType, vs[i], sels, e);
        ElementIff(env, n, path, elementType, vs[i], sels, JsonNull);
      }
      var panics := seq(|vs|, i requires 0 <= i < |vs| => ElementPanics(elementType, vs[i]));
      var inside :=
        seq(|vs|, i requires 0 <= i < |vs| => ErrorInElement(env, n, path, elementType, vs[i], sels, e));
      ErrorsDecided(all, es, panics, inside, e);
      FirstsDecided(env, n, path, elementType, v, sels, e, panics, inside);
    }
  }

  lemma FirstsDecided(env: Env, n: nat, path: seq<string>, elementType: Type, v: Value, sels: seq<Selection>,
                      e: Error, panics: seq<bool>, inside: seq<bool>)
    requires Bounded(env.fragments, sels, n) && v.Slice? && |panics| == |inside| == |v.elements|
    requires forall i :: 0 <= i < |panics| ==> panics[i] == ElementPanics(elementType, v.elements[i])
    requires forall i :: 0 <= i < |panics| ==>
               inside[i] == ErrorInElement(env, n, path, elementType, v.elements[i], sels, e)
    ensures ErrorInList(env, n, path, elementType, v, sels, e) <==>
            exists i :: 0 <= i < |inside| && inside[i] && forall j :: 0 <= j < i ==> !panics[j]
  {
    hide ErrorInElement, ElementPanics, Bounded;
    if ErrorInList(env, n, path, elementType, v, sels, e) {
      var i :| 0 <= i < |v.elements| && ErrorInElement(env, n, path, elementType, v.elements[i], sels, e) &&
        forall j :: 0 <= j < i ==> !ElementPanics(elementType, v.elements[j]);
      assert inside[i];
    }
    if i :| 0 <= i < |inside| && inside[i] && forall j :: 0 <= j < i ==> !panics[j] {
      assert ErrorInElement(env, n, path, elementType, v.elements[i], sels, e);
    }
  }

  // ----- what a reader sees of one field -----

  predicate Below(path: seq<string>, e: Error) {
    |path| < |e.path| && path <= e.path
  }

  lemma {:induction false} ErrorsAreBelow(env: Env, n: nat, path: seq<string>, parent: Value, parentType: Type,
                                          sels: seq<Selection>, e: Error)
    requires Bounded(env.fragments, sels, n) && ErrorIn(env, n, path, parent, parentType, sels, e)
    ensures Below(path, e)
    decreases n, 1
  {
    hide Flatten, CollectAll, ErrorOf, SelectedWithin;
    var occs := Flatten(env, n, parent, parentType, sels);
    if e in Unresolved(env, path, occs) {
      UnresolvedErrors(env, path, occs, e);
    } else {
      var f :| f in Collected(env, occs) && n > 0 && SelectedWithin(env, f, n - 1) && ErrorOf(env, n - 1, path, f, e);
      FieldErrorsBelow(env, n - 1, path, f, e);
    }
  }

  lemma {:induction false} UnresolvedErrors(env: Env, path: seq<string>, occs: seq<Occurrence>, e: Error)
    requires e in Unresolved(env, path, occs)
    ensures e.cause == NoResolver && Below(path, e)
  {
    if e in Unresolved(env, path, occs[..|occs| - 1]) {
      UnresolvedErrors(env, path, occs[..|occs| - 1], e);
    }
  }

  /** An error of a field is its own, or lies below the field. */
  lemma {:induction false} FieldErrorsBelow(env: Env, n: nat, path: seq<string>, f: Selected, e: Error)
    requires SelectedWithin(env, f, n) && ErrorOf(env, n, path, f, e)
    ensures Below(path, e) && path + [f.field.alias] <= e.path
    ensures e.path == path + [f.field.alias] ==> FailsWith(env, f, e.cause)
    decreases n, 4
  {
    hide ErrorInside, FailsWith, Bounded;
    var here := path + [f.field.alias];
    if !(e.path == here && FailsWith(env, f, e.cause)) {
      InsideBelow(env, n, here, Nullable(f.field.schema.value), f.outcome.value, f.selections, e);
    }
  }

  lemma {:induction false} InsideBelow(env: Env, n: nat, path: seq<string>, t: Type, v: Value, sels: seq<Selection>,
                                       e: Error)
    requires Bounded(env.fragments, sels, n) && ErrorInside(env, n, path, t, v, sels, e)
    ensures Below(path, e)
    decreases n, 3
  {
    hide ErrorIn, ErrorInList, Bounded;
    if t.ListOf? {
      InListBelow(env, n, path, t.of, v, sels, e);
    } else {
      ErrorsAreBelow(env, n, path, v, t, sels, e);
    }
  }

  lemma {:induction false} InListBelow(env: Env, n: nat, path: seq<string>, elementType: Type, v: Value,
                                       sels: seq<Selection>, e: Error)
    requires Bounded(env.fragments, sels, n) && ErrorInList(env, n, path, elementType, v, sels, e)
    ensures Below(path, e)
    decreases n, 2, elementType, v
  {
    hide ErrorIn, Bounded, ElementPanics;
    var i :| 0 <= i < |v.elements| && ErrorInElement(env, n, path, elementType, v.elements[i], sels, e);
    if elementType.ListOf? {
      InListBelow(env, n, path, elementType.of, v.elements[i], sels, e);
    } else {
      ErrorsAreBelow(env, n, path, v.elements[i], elementType, sels, e);
    }
  }

  predicate HasMember(j: Json, key: string) {
    j.JsonObject? && exists m :: m in j.members && m.0 == key
  }

  lemma {:induction false} SuccessfulOnes(env: Env, fields: seq<Selected>, f: Selected)
    ensures f in Successful(env, fields) <==> f in fields && Succeeds(env, f)
  {
    hide Succeeds;
    if fields != [] {
      SuccessfulOnes(env, fields[..|fields| - 1], f);
    }
  }

  /** A field that was collected is in the response exactly if it does not fail, null exactly if it is nil; the errors
      at its place say how it failed. */
  lemma FieldIsAnswered(env: Env, n: nat, path: seq<string>, parent: Value, parentType: Type, sels: seq<Selection>,
                        t: Tree, f: Selected)
    requires Bounded(env.fragments, sels, n) && t == BuildObject(env, n, path, parent, parentType, sels)
    requires f in Collected(env, Flatten(env, n, parent, parentType, sels))
    ensures n > 0 && SelectedWithin(env, f, n - 1)
    ensures HasMember(Pruned(t), f.field.alias) <==> Succeeds(env, f)
    ensures forall j :: (f.field.alias, j) in Pruned(t).members ==> MemberFits(env, n - 1, f, (f.field.alias, j))
    ensures (f.field.alias, JsonNull) in Pruned(t).members <==>
            f.outcome == Yields(Nil) && !f.field.schema.value.NonNullOf?
    ensures forall cause :: cause != NoResolver ==>
              (Error(path + [f.field.alias], cause) in Errors(t) <==> FailsWith(env, f, cause))
  {
    hide Flatten, Collected, Pruned, Errors, FailsWith, MemberFits, Succeeds, ObjectFits, ErrorIn, Bounded, OnlyOne;
    CollectedOnce(env, n, parent, parentType, sels, f);
    MembersOfField(env, n, path, parent, parentType, sels, t, f);
    NullMember(env, n - 1, f);
    assert HasMember(Pruned(t), f.field.alias) ==> exists j :: (f.field.alias, j) in Pruned(t).members by {
      if m :| HasMember(Pruned(t), f.field.alias) && m in Pruned(t).members && m.0 == f.field.alias {
        assert (f.field.alias, m.1) in Pruned(t).members;
      }
    }
    forall cause | cause != NoResolver
      ensures Error(path + [f.field.alias], cause) in Errors(t) <==> FailsWith(env, f, cause)
    {
      ErrorsIff(env, n, path, parent, parentType, sels, Error(path + [f.field.alias], cause));
      ErrorsOfField(env, n, path, parent, parentType, sels, f, cause);
    }
  }

  predicate OnlyOne(fields: seq<Selected>, f: Selected) {
    forall g | g in fields :: g.field.alias == f.field.alias ==> g == f
  }

  /** A collected field is the only one with its alias. */
  lemma CollectedOnce(env: Env, n: nat, parent: Value, parentType: Type, sels: seq<Selection>, f: Selected)
    requires Bounded(env.fragments, sels, n) && f in Collected(env, Flatten(env, n, parent, parentType, sels))
    ensures n > 0 && SelectedWithin(env, f, n - 1)
    ensures OnlyOne(Collected(env, Flatten(env, n, parent, parentType, sels)), f)
  {
    hide Flatten, CollectAll, SelectedWithin, InOrder;
    var occs := Flatten(env, n, parent, parentType, sels);
    FlattenWithin(env, n, parent, parentType, sels);
    CollectedWithin(env, occs, n);
    CollectedIsInOrder(env, occs);
    AliasesDiffer(env, occs);
  }

  lemma MembersOfField(env: Env, n: nat, path: seq<string>, parent: Value, parentType: Type, sels: seq<Selection>,
                       t: Tree, f: Selected)
    requires Bounded(env.fragments, sels, n) && t == BuildObject(env, n, path, parent, parentType, sels)
    requires f in Collected(env, Flatten(env, n, parent, parentType, sels))
    requires n > 0 && SelectedWithin(env, f, n - 1)
    requires OnlyOne(Collected(env, Flatten(env, n, parent, parentType, sels)), f)
    ensures HasMember(Pruned(t), f.field.alias) <==> Succeeds(env, f)
    ensures forall j :: (f.field.alias, j) in Pruned(t).members ==> MemberFits(env, n - 1, f, (f.field.alias, j))
  {
    hide Flatten, Collected, BuildObject, Successful, Succeeds, SelectedWithin, ContentFits, Pruned, Bounded;
    ObjectIff(env, n, path, parent, parentType, sels, Pruned(t));
    var fields := Collected(env, Flatten(env, n, parent, parentType, sels));
    var kept, members := Successful(env, fields), Pruned(t).members;
    SuccessfulOnes(env, fields, f);
    forall m | m in members
      ensures exists i :: 0 <= i < |kept| && members[i] == m && kept[i].field.alias == m.0 && kept[i] in fields &&
                          (m.0 == f.field.alias ==> kept[i] == f)
    {
      var i :| 0 <= i < |members| && members[i] == m;
      SuccessfulOnes(env, fields, kept[i]);
      assert MemberFits(env, n - 1, kept[i], members[i]);
    }
    if Succeeds(env, f) {
      var i :| 0 <= i < |kept| && kept[i] == f;
      assert MemberFits(env, n - 1, kept[i], members[i]);
      assert members[i] in members;
    }
  }

  lemma ErrorsOfField(env: Env, n: nat, path: seq<string>, parent: Value, parentType: Type, sels: seq<Selection>,
                      f: Selected, cause: Cause)
    requires Bounded(env.fragments, sels, n) && cause != NoResolver
    requires f in Collected(env, Flatten(env, n, parent, parentType, sels))
    requires n > 0 && SelectedWithin(env, f, n - 1)
    requires OnlyOne(Collected(env, Flatten(env, n, parent, parentType, sels)), f)
    ensures ErrorIn(env, n, path, parent, parentType, sels, Error(path + [f.field.alias], cause)) <==>
            FailsWith(env, f, cause)
  {
    hide Flatten, Collected, FailsWith, ErrorInside, Bounded, Unresolved;
    var e := Error(path + [f.field.alias], cause);
    var occs := Flatten(env, n, parent, parentType, sels);
    if e in Unresolved(env, path, occs) {
      UnresolvedErrors(env, path, occs, e);
    }
    if FailsWith(env, f, cause) {
      assert ErrorOf(env, n - 1, path, f, e);
    }
    forall g | g in Collected(env, occs) && SelectedWithin(env, g, n - 1) && ErrorOf(env, n - 1, path, g, e)
      ensures FailsWith(env, f, cause)
    {
      FieldErrorsBelow(env, n - 1, path, g, e);
      assert (path + [g.field.alias])[|path|] == (path + [f.field.alias])[|path|];
    }
  }

  // ----- which values a type allows -----

  /** What a type allows: null only if it is not non-null, and lists just where it has them.  Where nothing was
      written, nothing is asked. */
  predicate Allowed(t: Type, j: Json)
    decreases t
  {
    match t
    case NonNullOf(of) => j != JsonNull && Allowed(of, j)
    case Named(_) => !j.JsonArray?
    case ListOf(of) =>
      j == JsonNull || j == JsonAbsent || (j.JsonArray? && forall i :: 0 <= i < |j.items| ==> Allowed(of, j.items[i]))
  }

  /** A list stands directly inside a list. */
  predicate ListInList(t: Type) {
    match t
    case Named(_) => false
    case NonNullOf(of) => ListInList(of)
    case ListOf(of) => of.ListOf? || ListInList(of)
  }

  /** An element is written as an object though its type is that of a list, behind a non-null mark. */
  ghost predicate Misplaced(elementType: Type, v: Value)
    decreases elementType, v, 1
  {
    v.Slice? && exists e :: e in v.elements && ElementMisplaced(elementType, e)
  }

  ghost predicate ElementMisplaced(elementType: Type, v: Value)
    decreases elementType, v, 0
  {
    if elementType.ListOf? then Misplaced(elementType.of, v) else HasList(elementType)
  }

  predicate HasList(t: Type) {
    match t
    case Named(_) => false
    case NonNullOf(of) => HasList(of)
    case ListOf(_) => true
  }

  lemma {:induction false} LeafIsAllowed(env: Env, t: Type, v: Value, j: Json)
    requires LeafFits(env, t, v, j) && !ListInList(t)
    ensures Allowed(t, j) && j != JsonNull
    decreases t
  {
    match t
    case NonNullOf(of) => LeafIsAllowed(env, of, v, j);
    case Named(_) =>
    case ListOf(of) =>
      forall i | 0 <= i < |j.items|
        ensures Allowed(of, j.items[i])
      {
        assert LeafElementFits(env, of, of, v.elements[i], j.items[i]);
        LeafIsAllowed(env, of, v.elements[i], j.items[i]);
      }
  }

  lemma {:induction false} ObjectIsAllowed(t: Type, j: Json)
    requires j.JsonObject?
    ensures Allowed(t, j) <==> !HasList(t)
  {
    if t.NonNullOf? {
      ObjectIsAllowed(t.of, j);
    }
  }

  lemma {:induction false} NothingIsAllowed(t: Type)
    ensures Allowed(t, JsonAbsent)
  {
    if t.NonNullOf? {
      NothingIsAllowed(t.of);
    }
  }

  lemma {:induction false} ListIsAllowedIff(env: Env, n: nat, elementType: Type, v: Value, sels: seq<Selection>,
                                            j: Json)
    requires Bounded(env.fragments, sels, n) && ListFits(env, n, elementType, v, sels, j)
    ensures Allowed(ListOf(elementType), j) <==> !Misplaced(elementType, v)
    decreases elementType, v
  {
    hide ObjectFits, Bounded, HasList;
    forall i | 0 <= i < |v.elements|
      ensures Allowed(elementType, j.items[i]) <==>
              !ElementMisplaced(elementType, v.elements[i])
    {
      assert ElementFits(env, n, elementType, v.elements[i], sels, j.items[i]);
      if elementType.ListOf? {
        ListIsAllowedIff(env, n, elementType.of, v.elements[i], sels, j.items[i]);
      } else {
        assert j.items[i].JsonObject? by { FitsIsObject(env, n, v.elements[i], elementType, sels, j.items[i]); }
        ObjectIsAllowed(elementType, j.items[i]);
      }
    }
    assert forall i :: 0 <= i < |v.elements| ==> v.elements[i] in v.elements;
    if Misplaced(elementType, v) {
      var e :| e in v.elements && ElementMisplaced(elementType, e);
      var i :| 0 <= i < |v.elements| && v.elements[i] == e;
      assert !Allowed(elementType, j.items[i]);
    }
  }

  lemma FitsIsObject(env: Env, n: nat, parent: Value, parentType: Type, sels: seq<Selection>, j: Json)
    requires Bounded(env.fragments, sels, n) && ObjectFits(env, n, parent, parentType, sels, j)
    ensures j.JsonObject?
  {
  }

  /** The value of a member is one its type allows: null exactly where the value is nil.  Two kinds of lists are
      left out: leaves in a list that stands directly inside a list, and objects in a list behind a non-null mark,
      which are allowed exactly if there are none. */
  lemma MemberIsAllowed(env: Env, n: nat, f: Selected, m: (string, Json))
    requires SelectedWithin(env, f, n) && MemberFits(env, n, f, m)
    ensures f.selections == [] && !ListInList(f.field.schema.value) ==> Allowed(f.field.schema.value, m.1)
    ensures f.selections != [] ==>
              (Allowed(f.field.schema.value, m.1) <==>
               (Nullable(f.field.schema.value).ListOf? ==>
                !Misplaced(Nullable(f.field.schema.value).of, f.outcome.value)))
    ensures m.1 == JsonNull <==> f.outcome.value.Nil?
    ensures m.1 == JsonNull ==> !f.field.schema.value.NonNullOf?
  {
    hide Bounded, LeafFits, ListFits, ObjectFits;
    NullMember(env, n, f);
    var t := f.field.schema.value;
    var v, inside := f.outcome.value, Nullable(t);
    if !v.Nil? {
      if f.selections == [] {
        if !ListInList(t) {
          LeafIsAllowed(env, inside, v, m.1);
        }
      } else if inside.ListOf? {
        ListIsAllowedIff(env, n, inside.of, v, f.selections, m.1);
      } else if inside.Named? && env.composite(inside.name) {
        FitsIsObject(env, n, v, inside, f.selections, m.1);
      } else {
        NothingIsAllowed(inside);
      }
    }
  }

  lemma {:induction false} LeafIsNotNull(env: Env, t: Type, v: Value)
    ensures !LeafFits(env, t, v, JsonNull)
  {
    if t.NonNullOf? {
      LeafIsNotNull(env, t.of, v);
    }
  }

  lemma ContentIsNotNull(env: Env, n: nat, t: Type, v: Value, sels: seq<Selection>)
    requires Bounded(env.fragments, sels, n)
    ensures !ContentFits(env, n, t, v, sels, JsonNull)
  {
    hide LeafFits, Bounded;
    LeafIsNotNull(env, t, v);
  }

  /** A member is null exactly if the value is nil under a type that allows it. */
  lemma NullMember(env: Env, n: nat, f: Selected)
    requires SelectedWithin(env, f, n)
    ensures forall m :: MemberFits(env, n, f, m) ==>
              (m.1 == JsonNull <==> f.outcome == Yields(Nil) && !f.field.schema.value.NonNullOf?)
    ensures f.outcome == Yields(Nil) && !f.field.schema.value.NonNullOf? ==> Succeeds(env, f)
  {
    hide ContentFits, Bounded;
    if f.outcome.Yields? {
      ContentIsNotNull(env, n, Nullable(f.field.schema.value), f.outcome.value, f.selections);
    }
  }

  /** A list inside a list of type `[[Hero]!]` is written as an object. */
  lemma ListWrittenAsObject(env: Env, n: nat, f: Selected, m: (string, Json))
    requires SelectedWithin(env, f, n) && f.selections != []
    requires f.field.schema == Some(ListOf(NonNullOf(ListOf(Named("Hero"))))) && f.outcome == Yields(Slice([Slice([])]))
    ensures Succeeds(env, f)
    ensures MemberFits(env, n, f, m) ==> m.1.JsonArray? && |m.1.items| == 1 && m.1.items[0].JsonObject?
    ensures MemberFits(env, n, f, m) ==> !Allowed(f.field.schema.value, m.1)
  {
    hide Bounded;
    var of := NonNullOf(ListOf(Named("Hero")));
    assert !ListPanics(of, f.outcome.value);
    if MemberFits(env, n, f, m) {
      assert ContentFits(env, n, ListOf(of), f.outcome.value, f.selections, m.1);
      assert ListFits(env, n, of, f.outcome.value, f.selections, m.1);
      assert ElementFits(env, n, of, Slice([]), f.selections, m.1.items[0]);
      FitsIsObject(env, n, Slice([]), of, f.selections, m.1.items[0]);
      ObjectIsAllowed(of, m.1.items[0]);
    }
  }
}
