/**
 Executing a selection set keeps no record of the fragments it has already
 spread, so a fragment spread twice is walked twice.  Where every field can be
 resolved this makes no difference: the tree of an execution depends only on
 the selections left when later repetitions are struck out, at every depth.
 */
module RepeatedSpreads {
  import opened Query
  import opened ExecutionSpec
  import opened ResponseTree

  // ----- striking out repetitions -----

  /** The elements without those that occurred before. */
  function Distinct<T(==)>(xs: seq<T>): seq<T> {
    if xs == [] then []
    else
      var before, last := xs[..|xs| - 1], xs[|xs| - 1];
      if last in before then Distinct(before) else Distinct(before) + [last]
  }

  lemma {:induction false} DistinctKeeps<T>(xs: seq<T>)
    ensures forall x :: x in Distinct(xs) <==> x in xs
  {
    if xs != [] {
      DistinctKeeps(xs[..|xs| - 1]);
    }
  }

  lemma DistinctOneMore<T>(xs: seq<T>, x: T)
    ensures Distinct(xs + [x]) == if x in xs then Distinct(xs) else Distinct(xs) + [x]
  {
    assert (xs + [x])[..|xs|] == xs;
  }

  /** What follows a sequence is treated alike whether or not the sequence had repetitions. */
  lemma {:induction false} DistinctOfSum<T>(a: seq<T>, b: seq<T>, c: seq<T>)
    requires Distinct(a) == Distinct(b)
    ensures Distinct(a + c) == Distinct(b + c)
  {
    if c == [] {
      assert a + c == a && b + c == b;
    } else {
      var before, last := c[..|c| - 1], c[|c| - 1];
      DistinctOfSum(a, b, before);
      assert a + c == (a + before) + [last] && b + c == (b + before) + [last];
      DistinctOneMore(a + before, last);
      DistinctOneMore(b + before, last);
      DistinctKeeps(a + before);
      DistinctKeeps(b + before);
    }
  }

  lemma {:induction false} DistinctAbsorbs<T>(a: seq<T>, b: seq<T>)
    requires forall x :: x in b ==> x in a
    ensures Distinct(a + b) == Distinct(a)
  {
    if b == [] {
      assert a + b == a;
    } else {
      var before, last := b[..|b| - 1], b[|b| - 1];
      DistinctAbsorbs(a, before);
      assert a + b == (a + before) + [last];
      assert last in b;
      DistinctOneMore(a + before, last);
    }
  }

  lemma {:induction false} DistinctTwice<T>(xs: seq<T>)
    ensures Distinct(Distinct(xs)) == Distinct(xs)
  {
    if xs != [] {
      var before, last := xs[..|xs| - 1], xs[|xs| - 1];
      DistinctTwice(before);
      DistinctKeeps(before);
      DistinctOneMore(Distinct(before), last);
    }
  }

  // ----- flattening -----

  lemma {:induction false} BoundedSum(fragments: seq<Fragment>, a: seq<Selection>, b: seq<Selection>, n: nat)
    ensures Bounded(fragments, a + b, n) <==> Bounded(fragments, a, n) && Bounded(fragments, b, n)
  {
    if Bounded(fragments, a + b, n) {
      assert forall s :: s in a ==> s in a + b;
      assert forall s :: s in b ==> s in a + b;
    }
  }

  lemma {:induction false} FlattenSum(env: Env, n: nat, parent: Value, parentType: Type, a: seq<Selection>,
                                      b: seq<Selection>)
    requires Bounded(env.fragments, a, n) && Bounded(env.fragments, b, n)
    ensures Bounded(env.fragments, a + b, n)
    ensures Flatten(env, n, parent, parentType, a + b) ==
            Flatten(env, n, parent, parentType, a) + Flatten(env, n, parent, parentType, b)
    decreases |a|
  {
    hide Flattened;
    BoundedSum(env.fragments, a, b, n);
    if a == [] {
      assert a + b == b;
    } else {
      assert (a + b)[0] == a[0] && (a + b)[1..] == a[1..] + b;
      FlattenSum(env, n, parent, parentType, a[1..], b);
    }
  }

  /** Flattening has the occurrences of each of its selections. */
  lemma {:induction false} FlattenHas(env: Env, n: nat, parent: Value, parentType: Type, sels: seq<Selection>,
                                      s: Selection, o: Occurrence)
    requires Bounded(env.fragments, sels, n) && s in sels && o in Flattened(env, n, parent, parentType, s)
    ensures o in Flatten(env, n, parent, parentType, sels)
    decreases |sels|
  {
    hide Flattened;
    if s != sels[0] {
      FlattenHas(env, n, parent, parentType, sels[1..], s, o);
    }
  }

  lemma {:induction false} FlattenDistinct(env: Env, n: nat, parent: Value, parentType: Type, sels: seq<Selection>)
    requires Bounded(env.fragments, sels, n)
    ensures Bounded(env.fragments, Distinct(sels), n)
    ensures Distinct(Flatten(env, n, parent, parentType, Distinct(sels))) ==
            Distinct(Flatten(env, n, parent, parentType, sels))
    decreases |sels|
  {
    hide Flatten, Flattened;
    if sels != [] {
      var before, last := sels[..|sels| - 1], sels[|sels| - 1];
      assert sels == before + [last];
      BoundedSum(env.fragments, before, [last], n);
      FlattenDistinct(env, n, parent, parentType, before);
      FlattenSum(env, n, parent, parentType, before, [last]);
      FlattenSum(env, n, parent, parentType, Distinct(before), [last]);
      var occs, kept, more := Flatten(env, n, parent, parentType, before),
                              Flatten(env, n, parent, parentType, Distinct(before)),
                              Flatten(env, n, parent, parentType, [last]);
      if last in before {
        forall o | o in more
          ensures o in occs
        {
          FlattenOfOne(env, n, parent, parentType, last);
          FlattenHas(env, n, parent, parentType, before, last, o);
        }
        DistinctAbsorbs(occs, more);
      } else {
        DistinctOfSum(kept, occs, more);
      }
    }
  }

  lemma FlattenOfOne(env: Env, n: nat, parent: Value, parentType: Type, s: Selection)
    requires Bounded(env.fragments, [s], n)
    ensures BoundedOne(env.fragments, s, n)
    ensures Flatten(env, n, parent, parentType, [s]) == Flattened(env, n, parent, parentType, s)
  {
    hide Flattened;
    assert s in [s] && [s][1..] == [];
    FlattenNothing(env, n, parent, parentType);
  }

  // ----- collecting -----

  /** The same fields, with sub-selections that differ only in repetitions. */
  ghost predicate Alike(a: seq<Selected>, b: seq<Selected>) {
    && |a| == |b|
    && forall k :: 0 <= k < |a| ==>
         && a[k].field == b[k].field && a[k].outcome == b[k].outcome
         && Distinct(a[k].selections) == Distinct(b[k].selections)
  }

  lemma AlikeTakesMore(env: Env, a: seq<Selected>, b: seq<Selected>, o: Occurrence)
    requires Alike(a, b)
    ensures Alike(WithOneMore(env, a, o), WithOneMore(env, b, o))
  {
    forall k | 0 <= k < |a|
      ensures Distinct(a[k].selections + o.field.selections) == Distinct(b[k].selections + o.field.selections)
    {
      DistinctOfSum(a[k].selections, b[k].selections, o.field.selections);
    }
    assert forall k :: 0 <= k < |a| ==> a[k].field == b[k].field;
    assert HasAlias(a, o.field.alias) <==> HasAlias(b, o.field.alias);
  }

  /** The collected field with an occurrence's alias has all the occurrence's sub-selections. */
  ghost predicate TakenIn(fields: seq<Selected>, o: Occurrence) {
    && HasAlias(fields, o.field.alias)
    && forall k, s :: 0 <= k < |fields| && fields[k].field.alias == o.field.alias && s in o.field.selections ==>
         s in fields[k].selections
  }

  lemma CollectOneAtATime(env: Env, occs: seq<Occurrence>, o: Occurrence)
    ensures Collected(env, occs + [o]) == WithOneMore(env, Collected(env, occs), o)
  {
    CollectAllOfSum(env, [], [], occs, [o]);
    CollectFew(env, [], Collected(env, occs), o);
  }

  lemma StaysTakenIn(env: Env, fields: seq<Selected>, last: Occurrence, o: Occurrence)
    requires HasAlias(fields, last.field.alias) || Resolvable(env, last)
    requires o == last || TakenIn(fields, o)
    ensures TakenIn(WithOneMore(env, fields, last), o)
  {
    var more := WithOneMore(env, fields, last);
    if HasAlias(fields, last.field.alias) {
      assert forall k :: 0 <= k < |fields| ==> more[k].field == fields[k].field;
      assert HasAlias(fields, o.field.alias);
      var k :| 0 <= k < |fields| && fields[k].field.alias == o.field.alias;
      assert more[k].field.alias == o.field.alias;
    } else {
      assert more[..|fields|] == fields && |more| == |fields| + 1 && more[|fields|].field == last.field;
      if o != last {
        var k :| 0 <= k < |fields| && fields[k].field.alias == o.field.alias;
        assert more[k] == fields[k];
        assert forall j :: 0 <= j < |fields| ==> more[j] == fields[j];
      } else {
        assert forall j :: 0 <= j < |fields| ==> more[j] == fields[j];
      }
    }
  }

  lemma AlikeWhenRepeated(env: Env, fields: seq<Selected>, o: Occurrence)
    requires TakenIn(fields, o)
    ensures Alike(WithOneMore(env, fields, o), fields)
  {
    forall k | 0 <= k < |fields| && fields[k].field.alias == o.field.alias
      ensures Distinct(fields[k].selections + o.field.selections) == Distinct(fields[k].selections)
    {
      DistinctAbsorbs(fields[k].selections, o.field.selections);
    }
  }

  lemma MissingOneMore(env: Env, path: seq<string>, before: seq<Occurrence>, last: Occurrence)
    ensures Missing(env, path, before + [last]) == [] <==>
            Missing(env, path, before) == [] &&
            (Resolvable(env, last) || HasAlias(Collected(env, before), last.field.alias))
  {
    CollectAllOfSum(env, path, [], before, [last]);
    CollectFew(env, path, Collected(env, before), last);
  }

  /** Where every field met resolves, repeating one changes nothing but repetitions of sub-selections. */
  lemma {:induction false} CollectedAlike(env: Env, path: seq<string>, occs: seq<Occurrence>)
    ensures Missing(env, path, occs) == [] <==> Missing(env, path, Distinct(occs)) == []
    ensures Missing(env, path, occs) == [] ==> Alike(Collected(env, occs), Collected(env, Distinct(occs)))
    ensures Missing(env, path, occs) == [] ==> forall o :: o in occs ==> TakenIn(Collected(env, occs), o)
    decreases |occs|
  {
    hide WithOneMore, CollectAll, Collected, Missing, TakenIn, Alike, HasAlias;
    if occs == [] {
      NothingAlike(env);
    } else {
      var before, last := occs[..|occs| - 1], occs[|occs| - 1];
      assert occs == before + [last];
      CollectedAlike(env, path, before);
      CollectOneAtATime(env, before, last);
      MissingOneMore(env, path, before, last);
      if last in before {
        if Missing(env, path, before) == [] {
          TakenInHasAlias(Collected(env, before), last);
          AlikeWhenRepeated(env, Collected(env, before), last);
          AlikeTrans(Collected(env, occs), Collected(env, before), Collected(env, Distinct(before)));
        }
      } else {
        CollectOneAtATime(env, Distinct(before), last);
        MissingOneMore(env, path, Distinct(before), last);
        if Missing(env, path, before) == [] {
          AlikeHasAlias(Collected(env, before), Collected(env, Distinct(before)), last.field.alias);
          AlikeTakesMore(env, Collected(env, before), Collected(env, Distinct(before)), last);
        }
      }
      if Missing(env, path, occs) == [] {
        forall o | o in occs
          ensures TakenIn(Collected(env, occs), o)
        {
          StaysTakenIn(env, Collected(env, before), last, o);
        }
      }
    }
  }

  lemma NothingAlike(env: Env)
    ensures Alike(Collected(env, []), Collected(env, []))
  {
  }

  lemma TakenInHasAlias(fields: seq<Selected>, o: Occurrence)
    requires TakenIn(fields, o)
    ensures HasAlias(fields, o.field.alias)
  {
  }

  lemma AlikeHasAlias(a: seq<Selected>, b: seq<Selected>, alias: string)
    requires Alike(a, b)
    ensures HasAlias(a, alias) <==> HasAlias(b, alias)
  {
  }

  lemma AlikeTrans(a: seq<Selected>, b: seq<Selected>, c: seq<Selected>)
    requires Alike(a, b) && Alike(b, c)
    ensures Alike(a, c)
  {
  }

  // ----- the trees -----

  /** Every field that was met found a resolver, at every depth. */
  predicate AllFound(t: Tree) {
    match t
    case Object(missing, fields) => missing == [] && forall f :: f in fields ==> AllFound(f.value)
    case Array(elements) => forall e :: e in elements ==> AllFound(e)
    case _ => true
  }

  predicate AllFoundIn(elements: seq<Tree>) {
    forall e :: e in elements ==> AllFound(e)
  }

  /** The tree depends only on which fields are met and in which order they are met first, where all are found. */
  lemma {:induction false} SameTreeIfSameFields(env: Env, n: nat, path: seq<string>, parent: Value, parentType: Type,
                                                s: seq<Selection>, t: seq<Selection>)
    requires Bounded(env.fragments, s, n) && Bounded(env.fragments, t, n)
    requires AllFound(BuildObject(env, n, path, parent, parentType, s))
    requires Distinct(Flatten(env, n, parent, parentType, s)) == Distinct(Flatten(env, n, parent, parentType, t))
    ensures BuildObject(env, n, path, parent, parentType, s) == BuildObject(env, n, path, parent, parentType, t)
    decreases n, 1
  {
    hide Flatten, Flattened, Collected, Missing, BuildFields, Alike;
    var so, to := Flatten(env, n, parent, parentType, s), Flatten(env, n, parent, parentType, t);
    CollectedAlike(env, path, so);
    CollectedAlike(env, path, to);
    FlattenWithin(env, n, parent, parentType, s);
    FlattenWithin(env, n, parent, parentType, t);
    CollectedWithin(env, so, n);
    CollectedWithin(env, to, n);
    AlikeSymmetric(Collected(env, to), Collected(env, Distinct(to)));
    AlikeTrans(Collected(env, so), Collected(env, Distinct(so)), Collected(env, to));
    SameFields(env, n, path, Collected(env, so), Collected(env, to));
  }

  lemma AlikeSymmetric(a: seq<Selected>, b: seq<Selected>)
    requires Alike(a, b)
    ensures Alike(b, a)
  {
  }

  /** Selections that differ only in repetitions give the same tree. */
  lemma {:induction false} SameTree(env: Env, n: nat, path: seq<string>, parent: Value, parentType: Type,
                                    s: seq<Selection>, t: seq<Selection>)
    requires Bounded(env.fragments, s, n) && Bounded(env.fragments, t, n) && Distinct(s) == Distinct(t)
    requires AllFound(BuildObject(env, n, path, parent, parentType, s))
    ensures BuildObject(env, n, path, parent, parentType, s) == BuildObject(env, n, path, parent, parentType, t)
    decreases n, 2
  {
    hide BuildObject;
    FlattenDistinct(env, n, parent, parentType, s);
    FlattenDistinct(env, n, parent, parentType, t);
    SameTreeIfSameFields(env, n, path, parent, parentType, s, t);
  }

  lemma {:induction false} SameFields(env: Env, n: nat, path: seq<string>, a: seq<Selected>, b: seq<Selected>)
    requires FieldsWithin(env, a, n) && FieldsWithin(env, b, n) && Alike(a, b)
    requires forall f :: f in BuildFields(env, n, path, a) ==> AllFound(f.value)
    ensures BuildFields(env, n, path, a) == BuildFields(env, n, path, b)
    decreases n, 0
  {
    hide BuildField;
    if n > 0 {
      forall k | 0 <= k < |a|
        ensures BuildField(env, n - 1, path, a[k]) == BuildField(env, n - 1, path, b[k])
      {
        assert BuildFields(env, n, path, a)[k] in BuildFields(env, n, path, a);
        SameField(env, n - 1, path, a[k], b[k]);
      }
    }
  }

  lemma {:induction false} SameField(env: Env, n: nat, path: seq<string>, f: Selected, g: Selected)
    requires SelectedWithin(env, f, n) && SelectedWithin(env, g, n)
    requires f.field == g.field && f.outcome == g.outcome && Distinct(f.selections) == Distinct(g.selections)
    requires AllFound(BuildField(env, n, path, f).value)
    ensures BuildField(env, n, path, f) == BuildField(env, n, path, g)
    decreases n, 4
  {
    hide BuildLeaf, BuildObject, BuildList, HasBroken, AllFound;
    var here, t := path + [f.field.alias], Unwrapped(f.field.schema.value);
    DistinctKeeps(f.selections);
    DistinctKeeps(g.selections);
    assert f.selections == [] <==> g.selections == [] by {
      assert f.selections != [] ==> f.selections[0] in f.selections;
      assert g.selections != [] ==> g.selections[0] in g.selections;
    }
    if f.outcome.Yields? && !f.outcome.value.Nil? && f.selections != [] {
      match t
      case ListOf(of) => SameList(env, n, here, of, f.outcome.value, f.selections, g.selections);
      case Named(name) =>
        if env.composite(name) {
          SameTree(env, n, here, f.outcome.value, t, f.selections, g.selections);
        }
      case NonNullOf(_) =>
    }
  }

  lemma {:induction false} SameList(env: Env, n: nat, path: seq<string>, elementType: Type, v: Value,
                                    s: seq<Selection>, t: seq<Selection>)
    requires Bounded(env.fragments, s, n) && Bounded(env.fragments, t, n) && Distinct(s) == Distinct(t)
    requires AllFound(BuildList(env, n, path, elementType, v, s))
    ensures BuildList(env, n, path, elementType, v, s) == BuildList(env, n, path, elementType, v, t)
    decreases n, 3, elementType, v
  {
    if v.Slice? {
      SameElements(env, n, path, elementType, v.elements, s, t);
    }
  }

  lemma {:induction false} SameElements(env: Env, n: nat, path: seq<string>, elementType: Type, vs: seq<Value>,
                                        s: seq<Selection>, t: seq<Selection>)
    requires Bounded(env.fragments, s, n) && Bounded(env.fragments, t, n) && Distinct(s) == Distinct(t)
    requires AllFoundIn(BuildElements(env, n, path, elementType, vs, s))
    ensures BuildElements(env, n, path, elementType, vs, s) == BuildElements(env, n, path, elementType, vs, t)
    decreases n, 3, elementType, vs
  {
    hide BuildObject, BuildList, HasBroken, AllFound;
    if vs != [] {
      var v, init := vs[|vs| - 1], BuildElements(env, n, path, elementType, vs[..|vs| - 1], s);
      SameElements(env, n, path, elementType, vs[..|vs| - 1], s, t);
      if !EndsBroken(init) {
        var all := BuildElements(env, n, path, elementType, vs, s);
        assert all[|all| - 1] in all;
        if elementType.ListOf? {
          SameList(env, n, path, elementType.of, v, s, t);
        } else {
          SameTree(env, n, path, v, elementType, s, t);
        }
      }
    }
  }

  /** Spreading a fragment a second time in a selection set changes nothing in the tree, if with one spread all
      fields met are found: the response is the same, and so are the errors. */
  lemma RepeatedSpreadIsRedundant(env: Env, n: nat, path: seq<string>, parent: Value, parentType: Type,
                                  before: seq<Selection>, spread: Selection, between: seq<Selection>,
                                    after: seq<Selection>)
    requires spread.Spread? && Bounded(env.fragments, before + [spread] + between + [spread] + after, n)
    requires Bounded(env.fragments, before + [spread] + between + after, n) ==>
               AllFound(BuildObject(env, n, path, parent, parentType, before + [spread] + between + after))
    ensures Bounded(env.fragments, before + [spread] + between + after, n)
    ensures BuildObject(env, n, path, parent, parentType, before + [spread] + between + [spread] + after) ==
            BuildObject(env, n, path, parent, parentType, before + [spread] + between + after)
  {
    hide BuildObject, AllFound;
    var once := before + [spread] + between;
    BoundedSum(env.fragments, once + [spread], after, n);
    BoundedSum(env.fragments, once, [spread], n);
    BoundedSum(env.fragments, once, after, n);
    assert spread in once;
    DistinctOneMore(once, spread);
    DistinctOfSum(once + [spread], once, after);
    SameTree(env, n, path, parent, parentType, once + after, once + [spread] + after);
  }

  /** More generally a selection is redundant, wherever it stands and however it is nested, if all the
      fields it leads to have been met before it, and without it all fields met are found. */
  lemma VisitedSelectionIsRedundant(env: Env, n: nat, path: seq<string>, parent: Value, parentType: Type,
                                    before: seq<Selection>, again: Selection, after: seq<Selection>)
    requires Bounded(env.fragments, before + [again] + after, n) && Bounded(env.fragments, before + after, n)
    requires BoundedOne(env.fragments, again, n) && Bounded(env.fragments, before, n)
    requires AllFound(BuildObject(env, n, path, parent, parentType, before + after))
    requires forall o :: o in Flattened(env, n, parent, parentType, again) ==>
             o in Flatten(env, n, parent, parentType, before)
    ensures BuildObject(env, n, path, parent, parentType, before + [again] + after) ==
            BuildObject(env, n, path, parent, parentType, before + after)
  {
    hide Flatten, Flattened, BuildObject, AllFound;
    BoundedSum(env.fragments, before + [again], after, n);
    BoundedSum(env.fragments, before, [again], n);
    BoundedSum(env.fragments, before, after, n);
    FlattenSum(env, n, parent, parentType, before, [again]);
    FlattenSum(env, n, parent, parentType, before + [again], after);
    FlattenSum(env, n, parent, parentType, before, after);
    FlattenOfOne(env, n, parent, parentType, again);
    var met, more := Flatten(env, n, parent, parentType, before), Flatten(env, n, parent, parentType, [again]);
    DistinctAbsorbs(met, more);
    DistinctOfSum(met + more, met, Flatten(env, n, parent, parentType, after));
    SameTreeIfSameFields(env, n, path, parent, parentType, before + after, before + [again] + after);
  }
}
