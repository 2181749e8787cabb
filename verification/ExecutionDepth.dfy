/**
 The bound that makes execution terminate does not show in its result: any two
 bounds that cover the selections give the same tree.
 */
module ExecutionDepth {
  import opened Query
  import opened ExecutionSpec
  import opened ResponseTree

  lemma {:induction false} FlattenAnyDepth(env: Env, n: nat, m: nat, parent: Value, parentType: Type,
                                           sels: seq<Selection>)
    requires Bounded(env.fragments, sels, n) && n <= m
    ensures Bounded(env.fragments, sels, m)
    ensures Flatten(env, m, parent, parentType, sels) == Flatten(env, n, parent, parentType, sels)
    decreases n, sels
  {
    BoundedMonotone(env.fragments, sels, n, m);
    if sels != [] {
      FlattenedAnyDepth(env, n, m, parent, parentType, sels[0]);
      FlattenAnyDepth(env, n, m, parent, parentType, sels[1..]);
    }
  }

  lemma {:induction false} FlattenedAnyDepth(env: Env, n: nat, m: nat, parent: Value, parentType: Type, s: Selection)
    requires BoundedOne(env.fragments, s, n) && BoundedOne(env.fragments, s, m) && n <= m
    ensures Flattened(env, m, parent, parentType, s) == Flattened(env, n, parent, parentType, s)
    decreases n, s
  {
    match s
    case Field(_) =>
    case Inline(on, _, sels) =>
      match Target(env, on, parent, parentType) {
        case Some((p, t)) => FlattenAnyDepth(env, n, m, p, t, sels);
        case None =>
      }
    case Spread(name, _) =>
      var fragment := Lookup(env.fragments, name).value;
      match Target(env, fragment.on, parent, parentType) {
        case Some((p, t)) => FlattenAnyDepth(env, n - 1, m - 1, p, t, fragment.selections);
        case None =>
      }
  }

  lemma {:induction false} ObjectAnyDepth(env: Env, n: nat, m: nat, path: seq<string>, parent: Value, parentType: Type,
                                          sels: seq<Selection>)
    requires Bounded(env.fragments, sels, n) && n <= m
    ensures Bounded(env.fragments, sels, m)
    ensures BuildObject(env, m, path, parent, parentType, sels) == BuildObject(env, n, path, parent, parentType, sels)
    decreases n, 1
  {
    hide Collected, MissingAll, BuildFields;
    FlattenAnyDepth(env, n, m, parent, parentType, sels);
    var occs := Flatten(env, n, parent, parentType, sels);
    FlattenWithin(env, n, parent, parentType, sels);
    CollectedWithin(env, occs, n);
    FlattenWithin(env, m, parent, parentType, sels);
    CollectedWithin(env, occs, m);
    FieldsAnyDepth(env, n, m, path, Collected(env, occs));
  }

  lemma {:induction false} FieldsAnyDepth(env: Env, n: nat, m: nat, path: seq<string>, fields: seq<Selected>)
    requires FieldsWithin(env, fields, n) && FieldsWithin(env, fields, m) && n <= m
    ensures BuildFields(env, m, path, fields) == BuildFields(env, n, path, fields)
    decreases n, 0
  {
    hide BuildField;
    if n > 0 {
      forall k | 0 <= k < |fields|
        ensures BuildField(env, m - 1, path, fields[k]) == BuildField(env, n - 1, path, fields[k])
      {
        FieldAnyDepth(env, n - 1, m - 1, path, fields[k]);
      }
    }
  }

  lemma {:induction false} FieldAnyDepth(env: Env, n: nat, m: nat, path: seq<string>, f: Selected)
    requires SelectedWithin(env, f, n) && SelectedWithin(env, f, m) && n <= m
    ensures BuildField(env, m, path, f) == BuildField(env, n, path, f)
    decreases n, 4
  {
    hide BuildLeaf, BuildObject, BuildList, HasBroken;
    if f.outcome.Yields? {
      var here, t := path + [f.field.alias], Unwrapped(f.field.schema.value);
      match t
      case ListOf(of) => ListAnyDepth(env, n, m, here, of, f.outcome.value, f.selections);
      case Named(_) => ObjectAnyDepth(env, n, m, here, f.outcome.value, t, f.selections);
      case NonNullOf(_) =>
    }
  }

  lemma {:induction false} ListAnyDepth(env: Env, n: nat, m: nat, path: seq<string>, elementType: Type, v: Value,
                                        sels: seq<Selection>)
    requires Bounded(env.fragments, sels, n) && Bounded(env.fragments, sels, m) && n <= m
    ensures BuildList(env, m, path, elementType, v, sels) == BuildList(env, n, path, elementType, v, sels)
    decreases n, 2, elementType, v
  {
    if v.Slice? {
      ElementsAnyDepth(env, n, m, path, elementType, v.elements, sels);
    }
  }

  lemma {:induction false} ElementsAnyDepth(env: Env, n: nat, m: nat, path: seq<string>, elementType: Type,
                                            vs: seq<Value>, sels: seq<Selection>)
    requires Bounded(env.fragments, sels, n) && Bounded(env.fragments, sels, m) && n <= m
    ensures BuildElements(env, m, path, elementType, vs, sels) == BuildElements(env, n, path, elementType, vs, sels)
    decreases n, 2, elementType, vs
  {
    hide BuildObject, BuildList, HasBroken;
    if vs != [] {
      var v := vs[|vs| - 1];
      ElementsAnyDepth(env, n, m, path, elementType, vs[..|vs| - 1], sels);
      if elementType.ListOf? {
        ListAnyDepth(env, n, m, path, elementType.of, v, sels);
      } else {
        ObjectAnyDepth(env, n, m, path, v, elementType, sels);
      }
    }
  }
}
