/**
 What executing a selection set means, with no buffer and no mutable map:
 the depth-first flattening of the selections, the fields collected from it,
 and the tree of everything that was attempted, from which the response and
 the error list are read off.
 */
module ExecutionSpec {
  import opened Wrappers
  import opened Query

  /** A runtime value: nothing, a slice, or anything else. */
  datatype Value = Nil | Slice(elements: seq<Value>) | Other(id: int)

  /** What a field's resolution gives when it is called. */
  datatype Outcome = Fails(message: string) | Yields(value: Value)

  /** Everything execution is given: the document, the resolvers and the Go runtime's view of values.
      `marshal` is None where encoding a value as a type of that name panics, and `brokenElement` is the
      test on which writing an element of non-null type panics. */
  datatype Env = Env(
    fragments: seq<Fragment>,
    skip: seq<Directive> -> bool,
    resolve: (Value, Type, FieldSelection) -> Option<Outcome>,
    cast: (Value, string) -> Option<Value>,
    composite: string -> bool,
    marshal: (Value, string) -> Option<string>,
    brokenElement: Value -> bool)

  datatype Cause = NoResolver | ResolverFailed(message: string) | NilForNonNull | Panicked
  datatype Error = Error(path: seq<string>, cause: Cause)

  function TypeString(t: Type): string {
    match t
    case Named(name) => name
    case ListOf(of) => "[" + TypeString(of) + "]"
    case NonNullOf(of) => TypeString(of) + "!"
  }

  // ----- flattening -----

  /** A field met while flattening, with the parent it is resolved against. */
  datatype Occurrence = Occurrence(field: FieldSelection, parent: Value, parentType: Type)

  /** Where a fragment on type `on` is resolved, if it applies to the parent at all. */
  function Target(env: Env, on: string, parent: Value, parentType: Type): Option<(Value, Type)> {
    if on == "" || on == TypeString(parentType) then Some((parent, parentType))
    else
      match env.cast(parent, on)
      case Some(casted) => Some((casted, Named(on)))
      case None => None
  }

  /** The fields of `sels` and of the fragments that apply, depth first. */
  function Flatten(env: Env, n: nat, parent: Value, parentType: Type, sels: seq<Selection>): seq<Occurrence>
    requires Bounded(env.fragments, sels, n)
    decreases n, sels
  {
    if sels == [] then []
    else
      Flattened(env, n, parent, parentType, sels[0]) + Flatten(env, n, parent, parentType, sels[1..])
  }

  function Flattened(env: Env, n: nat, parent: Value, parentType: Type, s: Selection): seq<Occurrence>
    requires BoundedOne(env.fragments, s, n)
    decreases n, s
  {
    match s
    case Field(f) =>
      if env.skip(f.directives) || f.schema.None? then [] else [Occurrence(f, parent, parentType)]
    case Inline(on, directives, sels) =>
      if env.skip(directives) then []
      else
        (match Target(env, on, parent, parentType)
         case Some((p, t)) => Flatten(env, n, p, t, sels)
         case None => [])
    case Spread(name, directives) =>
      if env.skip(directives) then []
      else
        var fragment := Lookup(env.fragments, name).value;
        (match Target(env, fragment.on, parent, parentType)
         case Some((p, t)) => Flatten(env, n - 1, p, t, fragment.selections)
         case None => [])
  }

  /** A field whose own selections nest at most `n` deep. */
  ghost predicate FieldWithin(env: Env, o: Occurrence, n: nat) {
    o.field.schema.Some? && Bounded(env.fragments, o.field.selections, n)
  }

  ghost predicate AllWithin(env: Env, occs: seq<Occurrence>, n: nat) {
    if n == 0 then occs == [] else forall o | o in occs :: FieldWithin(env, o, n - 1)
  }

  lemma {:induction false} FlattenWithin(env: Env, n: nat, parent: Value, parentType: Type, sels: seq<Selection>)
    requires Bounded(env.fragments, sels, n)
    ensures AllWithin(env, Flatten(env, n, parent, parentType, sels), n)
    decreases n, sels
  {
    if sels != [] {
      FlattenedWithin(env, n, parent, parentType, sels[0]);
      FlattenWithin(env, n, parent, parentType, sels[1..]);
    }
  }

  lemma {:induction false} FlattenedWithin(env: Env, n: nat, parent: Value, parentType: Type, s: Selection)
    requires BoundedOne(env.fragments, s, n)
    ensures AllWithin(env, Flattened(env, n, parent, parentType, s), n)
    decreases n, s
  {
    match s
    case Field(_) =>
    case Inline(on, directives, sels) =>
      if !env.skip(directives) {
        match Target(env, on, parent, parentType)
        case Some((p, t)) => FlattenWithin(env, n, p, t, sels);
        case None =>
      }
    case Spread(name, directives) =>
      if !env.skip(directives) {
        var fragment := Lookup(env.fragments, name).value;
        match Target(env, fragment.on, parent, parentType)
        case Some((p, t)) =>
          FlattenWithin(env, n - 1, p, t, fragment.selections);
          WithinMonotone(env, Flatten(env, n - 1, p, t, fragment.selections), n - 1);
        case None =>
      }
  }

  lemma WithinMonotone(env: Env, occs: seq<Occurrence>, n: nat)
    requires AllWithin(env, occs, n)
    ensures AllWithin(env, occs, n + 1)
  {
    if n > 0 {
      forall o | o in occs
        ensures FieldWithin(env, o, n)
      {
        BoundedMonotone(env.fragments, o.field.selections, n - 1, n);
      }
    }
  }

  // ----- collecting -----

  /** A collected field: its first occurrence that resolves, and the selections merged under its alias. */
  datatype Selected = Selected(field: FieldSelection, outcome: Outcome, selections: seq<Selection>)

  predicate Resolvable(env: Env, o: Occurrence) {
    env.resolve(o.parent, o.parentType, o.field).Some?
  }

  predicate HasAlias(fields: seq<Selected>, alias: string) {
    exists k :: 0 <= k < |fields| && fields[k].field.alias == alias
  }

  /** How one more occurrence changes what is collected: it joins the field with its alias, or else
      becomes a new field at the end if it resolves. */
  function WithOneMore(env: Env, fields: seq<Selected>, o: Occurrence): seq<Selected> {
    if HasAlias(fields, o.field.alias) then
      seq(|fields|, k requires 0 <= k < |fields| =>
        if fields[k].field.alias == o.field.alias
        then fields[k].(selections := fields[k].selections + o.field.selections)
        else fields[k])
    else
      match env.resolve(o.parent, o.parentType, o.field)
      case Some(outcome) => fields + [Selected(o.field, outcome, o.field.selections)]
      case None => fields
  }

  /** The fields once more occurrences have been taken in. */
  function CollectAll(env: Env, fields: seq<Selected>, occs: seq<Occurrence>): seq<Selected>
    decreases |occs|
  {
    if occs == [] then fields else CollectAll(env, WithOneMore(env, fields, occs[0]), occs[1..])
  }

  /** The errors an occurrence reports, given the fields collected before it. */
  function MissingNow(env: Env, path: seq<string>, fields: seq<Selected>, o: Occurrence): seq<Error> {
    if Resolvable(env, o) || HasAlias(fields, o.field.alias) then [] else [Error(path + [o.field.alias], NoResolver)]
  }

  function MissingAll(env: Env, path: seq<string>, fields: seq<Selected>, occs: seq<Occurrence>): seq<Error>
    decreases |occs|
  {
    if occs == [] then []
    else
      MissingNow(env, path, fields, occs[0]) + MissingAll(env, path, WithOneMore(env, fields, occs[0]), occs[1..])
  }

  lemma {:induction false} CollectAllOfSum(env: Env, path: seq<string>, fields: seq<Selected>, a: seq<Occurrence>,
                                           b: seq<Occurrence>)
    ensures CollectAll(env, fields, a + b) == CollectAll(env, CollectAll(env, fields, a), b)
    ensures MissingAll(env, path, fields, a + b) ==
            MissingAll(env, path, fields, a) + MissingAll(env, path, CollectAll(env, fields, a), b)
    decreases |a|
  {
    hide WithOneMore, MissingNow;
    if a == [] {
      assert a + b == b;
    } else {
      assert (a + b)[0] == a[0] && (a + b)[1..] == a[1..] + b;
      CollectAllOfSum(env, path, WithOneMore(env, fields, a[0]), a[1..], b);
    }
  }

  lemma CollectFew(env: Env, path: seq<string>, fields: seq<Selected>, o: Occurrence)
    ensures CollectAll(env, fields, []) == fields && MissingAll(env, path, fields, []) == []
    ensures CollectAll(env, fields, [o]) == WithOneMore(env, fields, o)
    ensures MissingAll(env, path, fields, [o]) == MissingNow(env, path, fields, o)
  {
    assert [o][1..] == [];
  }

  lemma FlattenNothing(env: Env, n: nat, parent: Value, parentType: Type)
    ensures Bounded(env.fragments, [], n) && Flatten(env, n, parent, parentType, []) == []
  {
  }

  lemma FlattenNext(env: Env, n: nat, parent: Value, parentType: Type, sels: seq<Selection>, i: nat)
    requires Bounded(env.fragments, sels, n) && i < |sels|
    ensures Flatten(env, n, parent, parentType, sels[i..]) ==
            Flattened(env, n, parent, parentType, sels[i]) + Flatten(env, n, parent, parentType, sels[i + 1..])
  {
    assert sels[i..][1..] == sels[i + 1..];
  }

  /** The fields collected from a flattening. */
  function Collected(env: Env, occs: seq<Occurrence>): seq<Selected> {
    CollectAll(env, [], occs)
  }

  function Missing(env: Env, path: seq<string>, occs: seq<Occurrence>): seq<Error> {
    MissingAll(env, path, [], occs)
  }

  /** Where aliases are unique, joining a field changes just that field. */
  lemma JoinChangesOne(env: Env, fields: seq<Selected>, o: Occurrence, index: nat)
    requires index < |fields| && fields[index].field.alias == o.field.alias
    requires forall i :: 0 <= i < |fields| && i != index ==> fields[i].field.alias != o.field.alias
    ensures WithOneMore(env, fields, o) ==
            fields[index := fields[index].(selections := fields[index].selections + o.field.selections)]
    ensures HasAlias(fields, o.field.alias)
  {
  }

  lemma NewField(env: Env, fields: seq<Selected>, o: Occurrence)
    requires forall i :: 0 <= i < |fields| ==> fields[i].field.alias != o.field.alias
    ensures !HasAlias(fields, o.field.alias)
    ensures WithOneMore(env, fields, o) ==
            match env.resolve(o.parent, o.parentType, o.field)
            case Some(outcome) => fields + [Selected(o.field, outcome, o.field.selections)]
            case None => fields
  {
  }

  // ----- the same without a running state -----

  /** Occurrence `i` is the first with its alias that resolves. */
  predicate IsFirst(env: Env, occs: seq<Occurrence>, i: nat)
    requires i < |occs|
  {
    && Resolvable(env, occs[i])
    && !Taken(env, occs[..i], occs[i].field.alias)
  }

  /** Some occurrence with this alias resolves. */
  predicate Taken(env: Env, occs: seq<Occurrence>, alias: string)
  {
    exists j :: 0 <= j < |occs| && Resolvable(env, occs[j]) && occs[j].field.alias == alias
  }

  /** The first resolving occurrences, in order. */
  function Firsts(env: Env, occs: seq<Occurrence>, k: nat): (r: seq<nat>)
    requires k <= |occs|
    ensures forall j :: 0 <= j < |r| ==> r[j] < k && IsFirst(env, occs, r[j])
  {
    if k == 0 then [] else Firsts(env, occs, k - 1) + (if IsFirst(env, occs, k - 1) then [k - 1] else [])
  }

  /** All sub-selections of the occurrences with this alias, one after the other. */
  function Merged(occs: seq<Occurrence>, alias: string): seq<Selection>
  {
    if occs == [] then []
    else
      var last := occs[|occs| - 1];
      Merged(occs[..|occs| - 1], alias) + (if last.field.alias == alias then last.field.selections else [])
  }

  /** The field collected for a first occurrence, with the sub-selections from there on. */
  function SelectedAt(env: Env, occs: seq<Occurrence>, i: nat): Selected
    requires i < |occs| && IsFirst(env, occs, i)
  {
    Selected(occs[i].field, env.resolve(occs[i].parent, occs[i].parentType, occs[i].field).value,
             Merged(occs[i..], occs[i].field.alias))
  }

  /** The collected fields, in order of their first occurrence. */
  function InOrder(env: Env, occs: seq<Occurrence>): seq<Selected>
  {
    var firsts := Firsts(env, occs, |occs|);
    seq(|firsts|, k requires 0 <= k < |firsts| => SelectedAt(env, occs, firsts[k]))
  }

  /** An error for each occurrence no resolver takes, unless its alias was resolved before. */
  function Unresolved(env: Env, path: seq<string>, occs: seq<Occurrence>): seq<Error> {
    if occs == [] then []
    else
      var before, last := occs[..|occs| - 1], occs[|occs| - 1];
      Unresolved(env, path, before) +
      (if Resolvable(env, last) || Taken(env, before, last.field.alias) then []
       else [Error(path + [last.field.alias], NoResolver)])
  }

  lemma {:induction false} FirstsOfPrefix(env: Env, occs: seq<Occurrence>, o: Occurrence, k: nat)
    requires k <= |occs|
    ensures Firsts(env, occs + [o], k) == Firsts(env, occs, k)
  {
    if k > 0 {
      FirstsOfPrefix(env, occs, o, k - 1);
      assert (occs + [o])[..k - 1] == occs[..k - 1];
    }
  }

  /** A taken alias is that of a first occurrence. */
  lemma {:induction false} FirstOf(env: Env, occs: seq<Occurrence>, alias: string, k: nat) returns (i: int)
    requires k <= |occs| && Taken(env, occs[..k], alias)
    ensures 0 <= i < |Firsts(env, occs, k)| && occs[Firsts(env, occs, k)[i]].field.alias == alias
    decreases k
  {
    if Taken(env, occs[..k - 1], alias) {
      i := FirstOf(env, occs, alias, k - 1);
    } else {
      i := |Firsts(env, occs, k)| - 1;
    }
  }

  ghost predicate AliasesDifferAt(occs: seq<Occurrence>, at: seq<nat>) {
    && (forall i :: 0 <= i < |at| ==> at[i] < |occs|)
    && (forall i, j :: 0 <= i < j < |at| ==> occs[at[i]].field.alias != occs[at[j]].field.alias)
  }

  /** No two first occurrences share an alias. */
  lemma {:induction false} FirstsDiffer(env: Env, occs: seq<Occurrence>, k: nat)
    requires k <= |occs|
    ensures AliasesDifferAt(occs, Firsts(env, occs, k))
    decreases k
  {
    if k > 0 {
      FirstsDiffer(env, occs, k - 1);
      var before := Firsts(env, occs, k - 1);
      forall i | 0 <= i < |before| && IsFirst(env, occs, k - 1)
        ensures occs[before[i]].field.alias != occs[k - 1].field.alias
      {
        assert occs[..k - 1][before[i]] == occs[before[i]] && IsFirst(env, occs, before[i]);
      }
      var firsts := Firsts(env, occs, k);
      forall i, j | 0 <= i < j < |firsts|
        ensures occs[firsts[i]].field.alias != occs[firsts[j]].field.alias
      {
        assert firsts[i] == before[i];
        assert j < |before| ==> firsts[j] == before[j];
      }
    }
  }

  lemma AliasesDiffer(env: Env, occs: seq<Occurrence>)
    ensures var fields := InOrder(env, occs);
            forall i, j :: 0 <= i < j < |fields| ==> fields[i].field.alias != fields[j].field.alias
  {
    FirstsDiffer(env, occs, |occs|);
    var fields, firsts := InOrder(env, occs), Firsts(env, occs, |occs|);
    forall i, j | 0 <= i < j < |fields|
      ensures fields[i].field.alias != fields[j].field.alias
    {
      assert occs[firsts[i]].field.alias != occs[firsts[j]].field.alias;
    }
  }

  lemma HasAliasIfTaken(env: Env, occs: seq<Occurrence>, alias: string)
    ensures HasAlias(InOrder(env, occs), alias) <==> Taken(env, occs, alias)
  {
    assert occs[..|occs|] == occs;
    var fields, firsts := InOrder(env, occs), Firsts(env, occs, |occs|);
    if Taken(env, occs, alias) {
      var k := FirstOf(env, occs, alias, |occs|);
      assert fields[k].field.alias == alias;
    }
    if HasAlias(fields, alias) {
      var k :| 0 <= k < |fields| && fields[k].field.alias == alias;
      assert IsFirst(env, occs, firsts[k]);
    }
  }

  /** What one more occurrence adds to a field already collected. */
  lemma FieldWithOneMore(env: Env, occs: seq<Occurrence>, o: Occurrence, k: nat)
    requires k < |InOrder(env, occs)|
    ensures var f := InOrder(env, occs)[k];
            && k < |InOrder(env, occs + [o])|
            && InOrder(env, occs + [o])[k] ==
               if f.field.alias == o.field.alias then f.(selections := f.selections + o.field.selections) else f
  {
    var all, firsts := occs + [o], Firsts(env, occs, |occs|);
    FirstsOfPrefix(env, occs, o, |occs|);
    var i := firsts[k];
    assert Firsts(env, all, |all|)[k] == i;
    assert all[i..] == occs[i..] + [o] && all[i..][..|all[i..]| - 1] == occs[i..];
  }

  lemma CollectOneMore(env: Env, occs: seq<Occurrence>, o: Occurrence)
    ensures InOrder(env, occs + [o]) == WithOneMore(env, InOrder(env, occs), o)
  {
    var all, before, after := occs + [o], InOrder(env, occs), InOrder(env, occs + [o]);
    HasAliasIfTaken(env, occs, o.field.alias);
    FirstsOfPrefix(env, occs, o, |occs|);
    assert all[..|occs|] == occs && all[|occs|..] == [o];
    forall k | 0 <= k < |before|
      ensures after[k] == if before[k].field.alias == o.field.alias
                          then before[k].(selections := before[k].selections + o.field.selections) else before[k]
    {
      FieldWithOneMore(env, occs, o, k);
    }
    assert IsFirst(env, all, |occs|) <==> Resolvable(env, o) && !HasAlias(before, o.field.alias);
    if IsFirst(env, all, |occs|) {
      assert [o][..0] == [] && Merged([o], o.field.alias) == o.field.selections;
      assert after[|before|] == Selected(o.field, env.resolve(o.parent, o.parentType, o.field).value,
                                         o.field.selections);
      assert after == before + [after[|before|]];
    }
  }

  lemma OneMoreUnresolved(env: Env, path: seq<string>, occs: seq<Occurrence>, o: Occurrence)
    ensures Unresolved(env, path, occs + [o]) ==
            Unresolved(env, path, occs) + MissingNow(env, path, InOrder(env, occs), o)
  {
    assert (occs + [o])[..|occs|] == occs;
    HasAliasIfTaken(env, occs, o.field.alias);
  }

  /** Response keys come in order of first occurrence, each with the resolution of its first occurrence
      that resolves and with all the sub-selections from there on. */
  lemma {:induction false} CollectedIsInOrder(env: Env, occs: seq<Occurrence>)
    ensures Collected(env, occs) == InOrder(env, occs)
    decreases |occs|
  {
    if occs != [] {
      var before, o := occs[..|occs| - 1], occs[|occs| - 1];
      CollectedIsInOrder(env, before);
      CollectAllOfSum(env, [], [], before, [o]);
      assert before + [o] == occs && [o][1..] == [];
      CollectOneMore(env, before, o);
    }
  }

  lemma {:induction false} MissingIsUnresolved(env: Env, path: seq<string>, occs: seq<Occurrence>)
    ensures Missing(env, path, occs) == Unresolved(env, path, occs)
    decreases |occs|
  {
    if occs != [] {
      var before, o := occs[..|occs| - 1], occs[|occs| - 1];
      MissingIsUnresolved(env, path, before);
      CollectedIsInOrder(env, before);
      CollectAllOfSum(env, path, [], before, [o]);
      assert before + [o] == occs && [o][1..] == [];
      OneMoreUnresolved(env, path, before, o);
    }
  }
}
