/**
 Copying a type from one schema into another together with everything it
 needs: a type already present under its name is left alone, and the walk does
 not go past it.
 */
module TypeClosure {
  import opened Wrappers

  /** A reference from one type to another: to a type of the schema, or to a name nobody resolved. */
  datatype TypeRef = Resolved(name: string) | Unresolved(name: string) | ListRef(of: TypeRef) | NonNullRef(of: TypeRef)

  datatype InputValue = InputValue(typ: TypeRef, directives: seq<string>)
  datatype Field = Field(directives: seq<string>, typ: TypeRef, args: seq<InputValue>)

  datatype TypeDef =
    | Scalar
    | Enum(directives: seq<string>, values: seq<seq<string>>)
    | Object(directives: seq<string>, interfaces: seq<string>, fields: seq<Field>)
    | Interface(directives: seq<string>, fields: seq<Field>)
    | InputObject(directives: seq<string>, inputs: seq<InputValue>)
    | Union(directives: seq<string>, members: seq<string>)

  type Types = map<string, TypeDef>

  // ----- what a type refers to -----

  function RefNames(r: TypeRef): set<string> {
    match r
    case Resolved(name) => {name}
    case Unresolved(_) => {}
    case ListRef(of) => RefNames(of)
    case NonNullRef(of) => RefNames(of)
  }

  function InputNames(inputs: seq<InputValue>): set<string> {
    if inputs == [] then {}
    else InputNames(inputs[..|inputs| - 1]) + RefNames(inputs[|inputs| - 1].typ)
  }

  function FieldNames(fields: seq<Field>): set<string> {
    if fields == [] then {}
    else
      var last := fields[|fields| - 1];
      FieldNames(fields[..|fields| - 1]) + RefNames(last.typ) + InputNames(last.args)
  }

  /** The types of a type's fields and arguments, or a union's members. */
  function Successors(d: TypeDef): set<string> {
    match d
    case Scalar => {}
    case Enum(_, _) => {}
    case Object(_, _, fields) => FieldNames(fields)
    case Interface(_, fields) => FieldNames(fields)
    case InputObject(_, inputs) => InputNames(inputs)
    case Union(_, members) => MemberNames(members)
  }

  function MemberNames(members: seq<string>): set<string> {
    set m | m in members
  }

  /** The reference is to `n`, or to lists of it, or to it without null. */
  predicate IsTo(r: TypeRef, n: string) {
    match r
    case Resolved(name) => name == n
    case Unresolved(_) => false
    case ListRef(of) => IsTo(of, n)
    case NonNullRef(of) => IsTo(of, n)
  }

  ghost predicate SomeIsTo(inputs: seq<InputValue>, n: string) {
    exists i :: 0 <= i < |inputs| && IsTo(inputs[i].typ, n)
  }

  ghost predicate SomeFieldIsTo(fields: seq<Field>, n: string) {
    exists i :: 0 <= i < |fields| && (IsTo(fields[i].typ, n) || SomeIsTo(fields[i].args, n))
  }

  /** A type needs another if a field of it, an argument of a field, or an input field is of that type, or if it is a
      union and the other is one of its members; the interfaces of an object are not followed. */
  ghost predicate Needs(d: TypeDef, n: string) {
    match d
    case Scalar => false
    case Enum(_, _) => false
    case Object(_, _, fields) => SomeFieldIsTo(fields, n)
    case Interface(_, fields) => SomeFieldIsTo(fields, n)
    case InputObject(_, inputs) => SomeIsTo(inputs, n)
    case Union(_, members) => n in members
  }

  lemma {:induction false} RefNamesIs(r: TypeRef, n: string)
    ensures n in RefNames(r) <==> IsTo(r, n)
  {
    if r.ListRef? || r.NonNullRef? {
      RefNamesIs(r.of, n);
    }
  }

  lemma {:induction false} InputNamesAre(inputs: seq<InputValue>, n: string)
    ensures n in InputNames(inputs) <==> SomeIsTo(inputs, n)
  {
    hide RefNames, IsTo;
    if inputs != [] {
      var init, last := inputs[..|inputs| - 1], inputs[|inputs| - 1];
      InputNamesAre(init, n);
      RefNamesIs(last.typ, n);
      assert forall i :: 0 <= i < |init| ==> init[i] == inputs[i];
    }
  }

  lemma {:induction false} FieldNamesAre(fields: seq<Field>, n: string)
    ensures n in FieldNames(fields) <==> SomeFieldIsTo(fields, n)
  {
    hide RefNames, IsTo, InputNames, SomeIsTo;
    if fields != [] {
      var init, last := fields[..|fields| - 1], fields[|fields| - 1];
      FieldNamesAre(init, n);
      RefNamesIs(last.typ, n);
      InputNamesAre(last.args, n);
      assert forall i :: 0 <= i < |init| ==> init[i] == fields[i];
    }
  }

  lemma SuccessorsIff(d: TypeDef, n: string)
    ensures n in Successors(d) <==> Needs(d, n)
  {
    hide FieldNames, InputNames, SomeFieldIsTo, SomeIsTo;
    match d
    case Object(_, _, fields) => FieldNamesAre(fields, n);
    case Interface(_, fields) => FieldNamesAre(fields, n);
    case InputObject(_, inputs) => InputNamesAre(inputs, n);
    case _ =>
  }

  ghost predicate Closed(all: Types) {
    forall n :: n in all ==> Successors(all[n]) <= all.Keys
  }

  /** A path of references through types none of whose names is to be avoided. */
  ghost predicate IsPath(all: Types, avoid: set<string>, path: seq<string>) {
    && path != []
    && (forall k :: 0 <= k < |path| ==> path[k] in all && path[k] !in avoid)
    && (forall k :: 0 <= k < |path| - 1 ==> path[k + 1] in Successors(all[path[k]]))
  }

  ghost predicate Reaches(all: Types, avoid: set<string>, root: string, name: string) {
    exists path :: IsPath(all, avoid, path) && path[0] == root && path[|path| - 1] == name
  }

  // ----- what adding does -----

  /** `after` is `before` with types added for the sake of `roots`: nothing present is touched, each type
      added is reachable from a root through types that were not present, and has all it refers to. */
  ghost predicate Grew(all: Types, before: Types, after: Types, roots: set<string>) {
    && (forall n :: n in before ==> n in after && after[n] == before[n])
    && roots <= after.Keys
    && (forall n :: n in after && n !in before ==> Added(all, before, after, roots, n))
  }

  ghost predicate Added(all: Types, before: Types, after: Types, roots: set<string>, n: string) {
    && n in all && n in after && after[n] == all[n]
    && Successors(all[n]) <= after.Keys
    && exists root :: root in roots && Reaches(all, before.Keys, root, n)
  }

  lemma AvoidLess(all: Types, more: set<string>, less: set<string>, root: string, n: string)
    requires less <= more && Reaches(all, more, root, n)
    ensures Reaches(all, less, root, n)
  {
    var path :| IsPath(all, more, path) && path[0] == root && path[|path| - 1] == n;
    assert IsPath(all, less, path);
  }

  lemma GrewTwice(all: Types, a: Types, b: Types, c: Types, first: set<string>, second: set<string>)
    requires Grew(all, a, b, first) && Grew(all, b, c, second)
    ensures Grew(all, a, c, first + second)
  {
    forall n | n in c && n !in a
      ensures Added(all, a, c, first + second, n)
    {
      if n in b {
        assert Added(all, a, b, first, n);
      } else {
        assert Added(all, b, c, second, n);
        var root :| root in second && Reaches(all, b.Keys, root, n);
        AvoidLess(all, b.Keys, a.Keys, root, n);
      }
    }
  }

  lemma PathToSelf(all: Types, avoid: set<string>, name: string)
    requires name in all && name !in avoid
    ensures Reaches(all, avoid, name, name)
  {
    assert IsPath(all, avoid, [name]);
  }

  lemma ReachesThrough(all: Types, avoid: set<string>, more: set<string>, name: string, next: string, n: string)
    requires name in all && name !in avoid && avoid <= more && Reaches(all, more, next, n) &&
             next in Successors(all[name])
    ensures Reaches(all, avoid, name, n)
  {
    hide Successors;
    var path :| IsPath(all, more, path) && path[0] == next && path[|path| - 1] == n;
    var longer := [name] + path;
    forall k | 0 <= k < |longer| - 1
      ensures longer[k + 1] in Successors(all[longer[k]])
    {
      if k > 0 {
        assert longer[k] == path[k - 1] && longer[k + 1] == path[k];
      }
    }
    assert IsPath(all, avoid, longer);
  }

  /** Adding a type and then everything it refers to is adding the type with all it needs. */
  lemma GrewByOne(all: Types, before: Types, after: Types, name: string)
    requires name in all && name !in before && Grew(all, before[name := all[name]], after, Successors(all[name]))
    ensures Grew(all, before, after, {name})
  {
    hide Successors, IsPath, Closed;
    var now := before[name := all[name]];
    forall n | n in after && n !in before
      ensures Added(all, before, after, {name}, n)
    {
      if n == name {
        PathToSelf(all, before.Keys, name);
        assert Reaches(all, before.Keys, name, name);
      } else {
        assert Added(all, now, after, Successors(all[name]), n);
        var root :| root in Successors(all[name]) && Reaches(all, now.Keys, root, n);
        ReachesThrough(all, before.Keys, now.Keys, name, root, n);
      }
    }
  }

  /** Everything reachable through absent types was added. */
  lemma {:induction false} PathIsAdded(all: Types, before: Types, after: Types, path: seq<string>, k: nat)
    requires IsPath(all, before.Keys, path) && Grew(all, before, after, {path[0]}) && k < |path|
    ensures path[k] in after
  {
    if k > 0 {
      PathIsAdded(all, before, after, path, k - 1);
      assert Added(all, before, after, {path[0]}, path[k - 1]);
    }
  }

  /** The types added are exactly those reachable from the root along paths that avoid the names present before. */
  lemma AddedIffReachable(all: Types, before: Types, after: Types, root: string, n: string)
    requires Grew(all, before, after, {root})
    ensures n in after && n !in before <==> Reaches(all, before.Keys, root, n)
  {
    if n in after && n !in before {
      assert Added(all, before, after, {root}, n);
    }
    if Reaches(all, before.Keys, root, n) {
      var path :| IsPath(all, before.Keys, path) && path[0] == root && path[|path| - 1] == n;
      PathIsAdded(all, before, after, path, |path| - 1);
    }
  }

  // ----- directives -----

  function NamesOf(names: seq<string>): set<string> {
    set d | d in names
  }

  function InputDirectives(inputs: seq<InputValue>): set<string> {
    if inputs == [] then {}
    else InputDirectives(inputs[..|inputs| - 1]) + NamesOf(inputs[|inputs| - 1].directives)
  }

  function FieldDirectives(fields: seq<Field>): set<string> {
    if fields == [] then {}
    else
      var last := fields[|fields| - 1];
      FieldDirectives(fields[..|fields| - 1]) + NamesOf(last.directives) + InputDirectives(last.args)
  }

  function EnumDirectives(values: seq<seq<string>>): set<string> {
    if values == [] then {}
    else EnumDirectives(values[..|values| - 1]) + NamesOf(values[|values| - 1])
  }

  /** The directives written anywhere in a type. */
  function DirectivesOf(d: TypeDef): set<string> {
    match d
    case Scalar => {}
    case Enum(ds, values) => NamesOf(ds) + EnumDirectives(values)
    case Object(ds, _, fields) => NamesOf(ds) + FieldDirectives(fields)
    case Interface(ds, fields) => NamesOf(ds) + FieldDirectives(fields)
    case InputObject(ds, inputs) => NamesOf(ds) + InputDirectives(inputs)
    case Union(ds, _) => NamesOf(ds)
  }

  ghost predicate SomeInputCarries(inputs: seq<InputValue>, x: string) {
    exists i :: 0 <= i < |inputs| && x in inputs[i].directives
  }

  ghost predicate SomeFieldCarries(fields: seq<Field>, x: string) {
    exists i :: 0 <= i < |fields| && (x in fields[i].directives || SomeInputCarries(fields[i].args, x))
  }

  /** A directive stands at the type, at a field or an argument of a field, at an input field, or at a value of it. */
  ghost predicate Carries(d: TypeDef, x: string) {
    match d
    case Scalar => false
    case Enum(ds, values) => x in ds || exists i :: 0 <= i < |values| && x in values[i]
    case Object(ds, _, fields) => x in ds || SomeFieldCarries(fields, x)
    case Interface(ds, fields) => x in ds || SomeFieldCarries(fields, x)
    case InputObject(ds, inputs) => x in ds || SomeInputCarries(inputs, x)
    case Union(ds, _) => x in ds
  }

  lemma {:induction false} InputDirectivesAre(inputs: seq<InputValue>, x: string)
    ensures x in InputDirectives(inputs) <==> SomeInputCarries(inputs, x)
  {
    if inputs != [] {
      var init := inputs[..|inputs| - 1];
      InputDirectivesAre(init, x);
      assert forall i :: 0 <= i < |init| ==> init[i] == inputs[i];
    }
  }

  lemma {:induction false} FieldDirectivesAre(fields: seq<Field>, x: string)
    ensures x in FieldDirectives(fields) <==> SomeFieldCarries(fields, x)
  {
    hide InputDirectives, SomeInputCarries;
    if fields != [] {
      var init, last := fields[..|fields| - 1], fields[|fields| - 1];
      FieldDirectivesAre(init, x);
      InputDirectivesAre(last.args, x);
      assert forall i :: 0 <= i < |init| ==> init[i] == fields[i];
    }
  }

  lemma {:induction false} EnumDirectivesAre(values: seq<seq<string>>, x: string)
    ensures x in EnumDirectives(values) <==> exists i :: 0 <= i < |values| && x in values[i]
  {
    if values != [] {
      var init := values[..|values| - 1];
      EnumDirectivesAre(init, x);
      assert forall i :: 0 <= i < |init| ==> init[i] == values[i];
    }
  }

  lemma DirectivesIff(d: TypeDef, x: string)
    ensures x in DirectivesOf(d) <==> Carries(d, x)
  {
    hide FieldDirectives, InputDirectives, EnumDirectives, SomeFieldCarries, SomeInputCarries;
    match d
    case Enum(_, values) => EnumDirectivesAre(values, x);
    case Object(_, _, fields) => FieldDirectivesAre(fields, x);
    case Interface(_, fields) => FieldDirectivesAre(fields, x);
    case InputObject(_, inputs) => InputDirectivesAre(inputs, x);
    case _ =>
  }

  type Directives = map<string, Option<int>>

  /** Some type added carries the directive. */
  ghost predicate NewlyCarried(all: Types, before: set<string>, after: set<string>, x: string) {
    exists n :: n in after && n !in before && n in all && Carries(all[n], x)
  }

  /** A directive's entry after types were added: one that is carried by none of them, or that had a value, stays what
      it was; any other gets what the source schema declares, or nil. */
  ghost predicate EntryIsRight(declared: map<string, int>, before: Directives, after: Directives, carried: bool,
                               x: string) {
    if x in before && (!carried || before[x].Some?) then x in after && after[x] == before[x]
    else if !carried then x !in after
    else x in after && after[x] == (if x in declared then Some(declared[x]) else None)
  }

  lemma EntriesAreRight(all: Types, declared: map<string, int>, before: Directives, after: Directives, a: set<string>,
                        b: set<string>, x: string)
    requires after == WithDirectives(declared, before, DirectivesOfNew(all, a, b))
    ensures EntryIsRight(declared, before, after, NewlyCarried(all, a, b, x), x)
  {
    hide DirectivesOf, Carries;
    forall n | n in all
      ensures x in DirectivesOf(all[n]) <==> Carries(all[n], x)
    {
      DirectivesIff(all[n], x);
    }
    assert x in DirectivesOfNew(all, a, b) <==> NewlyCarried(all, a, b, x);
  }

  /** A directive that is needed and has no entry, or a nil one, gets what the source schema declares, perhaps nil. */
  function WithDirectives(declared: map<string, int>, directives: Directives, needed: set<string>): Directives {
    map d | d in directives.Keys + needed ::
      if d in directives && (d !in needed || directives[d].Some?) then directives[d]
      else if d in declared then Some(declared[d]) else None
  }

  lemma NoneAdded(declared: map<string, int>, directives: Directives)
    ensures WithDirectives(declared, directives, {}) == directives
  {
  }

  lemma WithDirectivesTwice(declared: map<string, int>, directives: Directives, a: set<string>, b: set<string>)
    ensures WithDirectives(declared, WithDirectives(declared, directives, a), b) ==
            WithDirectives(declared, directives, a + b)
  {
  }

  /** The directives of the types added. */
  ghost function DirectivesOfNew(all: Types, before: set<string>, after: set<string>): (r: set<string>)
    ensures forall d :: d in r <==> exists n :: n in after && n !in before && n in all && d in DirectivesOf(all[n])
  {
    set n, d | n in after && n !in before && n in all && d in DirectivesOf(all[n]) :: d
  }

  lemma DirectivesOfNewTwice(all: Types, a: set<string>, b: set<string>, c: set<string>)
    requires a <= b <= c
    ensures DirectivesOfNew(all, a, c) == DirectivesOfNew(all, a, b) + DirectivesOfNew(all, b, c)
  {
    hide DirectivesOf;
    var x, y, z := DirectivesOfNew(all, a, c), DirectivesOfNew(all, a, b), DirectivesOfNew(all, b, c);
    forall d | d in x
      ensures d in y + z
    {
      var n :| n in c && n !in a && n in all && d in DirectivesOf(all[n]);
      assert n in b || n !in b;
    }
  }

  lemma DirectivesOfNewOne(all: Types, before: set<string>, name: string)
    requires name in all && name !in before
    ensures DirectivesOfNew(all, before, before + {name}) == DirectivesOf(all[name])
  {
    hide DirectivesOf;
  }

  // ----- the schema that is extended -----

  datatype State = State(types: Types, directives: Directives)

  /** From `a` to `b` everything the roots need was added, and the directives `own`. */
  ghost predicate Extends(all: Types, declared: map<string, int>, a: State, b: State, roots: set<string>,
                          own: set<string>) {
    && Grew(all, a.types, b.types, roots)
    && b.directives == WithDirectives(declared, a.directives, own + DirectivesOfNew(all, a.types.Keys, b.types.Keys))
  }

  lemma ExtendsTwice(all: Types, declared: map<string, int>, a: State, b: State, c: State,
                     roots: set<string>, own: set<string>, roots': set<string>, own': set<string>)
    requires Extends(all, declared, a, b, roots, own) && Extends(all, declared, b, c, roots', own')
    ensures Extends(all, declared, a, c, roots + roots', own + own')
  {
    hide Grew, WithDirectives, DirectivesOfNew;
    var x, y := DirectivesOfNew(all, a.types.Keys, b.types.Keys), DirectivesOfNew(all, b.types.Keys, c.types.Keys);
    GrewTwice(all, a.types, b.types, c.types, roots, roots');
    WithDirectivesTwice(declared, a.directives, own + x, own' + y);
    GrewMeansMore(all, a.types, b.types, roots);
    GrewMeansMore(all, b.types, c.types, roots');
    DirectivesOfNewTwice(all, a.types.Keys, b.types.Keys, c.types.Keys);
    assert (own + x) + (own' + y) == (own + own') + (x + y);
  }

  lemma GrewMeansMore(all: Types, a: Types, b: Types, roots: set<string>)
    requires Grew(all, a, b, roots)
    ensures a.Keys <= b.Keys
  {
  }

  lemma ExtendsWithType(all: Types, declared: map<string, int>, a: State, b: State, name: string)
    requires name in all && name !in a.types
    requires Extends(all, declared, a.(types := a.types[name := all[name]]), b, Successors(all[name]),
                     DirectivesOf(all[name]))
    ensures Extends(all, declared, a, b, {name}, {})
  {
    hide Grew, WithDirectives, DirectivesOfNew, Successors, DirectivesOf;
    var now := a.types[name := all[name]];
    GrewByOne(all, a.types, b.types, name);
    GrewMeansMore(all, now, b.types, Successors(all[name]));
    DirectivesOfNewTwice(all, a.types.Keys, now.Keys, b.types.Keys);
    assert now.Keys == a.types.Keys + {name};
    DirectivesOfNewOne(all, a.types.Keys, name);
    var rest := DirectivesOfNew(all, now.Keys, b.types.Keys);
    assert {} + DirectivesOfNew(all, a.types.Keys, b.types.Keys) == DirectivesOf(all[name]) + rest;
  }

  lemma ExtendsBySome(all: Types, declared: map<string, int>, a: State, own: set<string>)
    ensures Extends(all, declared, a, a.(directives := WithDirectives(declared, a.directives, own)), {}, own)
  {
    assert DirectivesOfNew(all, a.types.Keys, a.types.Keys) == {};
    assert own + {} == own;
  }

  /** The target schema; `all` are the types of the source schema, and `declared` its directives. */
  class Schema {
    const all: Types
    const declared: map<string, int>
    var types: Types
    var directives: Directives

    constructor (all: Types, declared: map<string, int>, types: Types, directives: Directives)
      ensures this.all == all && this.declared == declared && this.types == types && this.directives == directives
    {
      this.all, this.declared, this.types, this.directives := all, declared, types, directives;
    }

    ghost function Absent(): set<string>
      reads this
    {
      all.Keys - types.Keys
    }

    ghost function Now(): State
      reads this
    {
      State(types, directives)
    }

    ghost predicate Since(before: State, roots: set<string>, own: set<string>)
      reads this
    {
      Extends(all, declared, before, Now(), roots, own)
    }

    method AddDirectives(names: seq<string>)
      modifies this`directives
      ensures directives == WithDirectives(declared, old(directives), NamesOf(names))
      ensures Since(old(Now()), {}, NamesOf(names))
    {
      hide WithDirectives;
      NoneAdded(declared, directives);
      assert NamesOf(names[..0]) == {};
      for i := 0 to |names|
        invariant directives == WithDirectives(declared, old(directives), NamesOf(names[..i]))
      {
        WithDirectivesTwice(declared, old(directives), NamesOf(names[..i]), {names[i]});
        assert NamesOf(names[..i + 1]) == NamesOf(names[..i]) + {names[i]};
        AddDirective(names[i]);
      }
      assert names[..|names|] == names;
      ExtendsBySome(all, declared, old(Now()), NamesOf(names));
    }

    method AddDirective(k: string)
      modifies this`directives
      ensures directives == WithDirectives(declared, old(directives), {k})
    {
      if k !in directives || directives[k] == None {
        directives := directives[k := if k in declared then Some(declared[k]) else None];
      }
    }

    /** A named type is added unless its name is taken, and then everything under it. */
    method AddType(name: string)
      requires Closed(all) && name in all
      modifies this
      ensures Since(old(Now()), {name}, {})
      decreases Absent(), 0
    {
      hide Extends;
      if name in types {
        NothingToAdd(all, declared, Now(), name);
        return;
      }
      types := types[name := all[name]];
      assert name in old(Absent()) && name !in Absent() && Absent() <= old(Absent());
      assert Absent() < old(Absent());
      assert Now() == old(Now()).(types := types);
      AddParts(all[name]);
      ExtendsWithType(all, declared, old(Now()), Now(), name);
    }

    method AddParts(d: TypeDef)
      requires Closed(all) && Successors(d) <= all.Keys
      modifies this
      ensures Since(old(Now()), Successors(d), DirectivesOf(d))
      decreases Absent(), 5
    {
      hide Extends, FieldNames, InputNames, MemberNames, FieldDirectives, InputDirectives, EnumDirectives, NamesOf;
      match d {
        case Scalar =>
          NothingIsAdded(all, declared, Now());
        case Enum(ds, values) =>
          AddDirectives(ds);
          ghost var middle := Now();
          AddEnumValues(values);
          ExtendsTwice(all, declared, old(Now()), middle, Now(), {}, NamesOf(ds), {}, EnumDirectives(values));
          assert Successors(d) == {} + {};
        case Object(ds, _, fields) =>
          AddDirectives(ds);
          ghost var middle := Now();
          AddFields(fields);
          ExtendsTwice(all, declared, old(Now()), middle, Now(), {}, NamesOf(ds), FieldNames(fields),
                       FieldDirectives(fields));
        case Interface(ds, fields) =>
          AddDirectives(ds);
          ghost var middle := Now();
          AddFields(fields);
          ExtendsTwice(all, declared, old(Now()), middle, Now(), {}, NamesOf(ds), FieldNames(fields),
                       FieldDirectives(fields));
        case InputObject(ds, inputs) =>
          AddDirectives(ds);
          ghost var middle := Now();
          AddInputs(inputs);
          ExtendsTwice(all, declared, old(Now()), middle, Now(), {}, NamesOf(ds), InputNames(inputs),
                       InputDirectives(inputs));
        case Union(ds, members) =>
          AddDirectives(ds);
          ghost var middle := Now();
          AddMembers(members);
          ExtendsTwice(all, declared, old(Now()), middle, Now(), {}, NamesOf(ds), MemberNames(members), {});
          assert NamesOf(ds) + {} == NamesOf(ds);
      }
      assert {} + Successors(d) == Successors(d);
    }

    method AddRef(r: TypeRef)
      requires Closed(all) && RefNames(r) <= all.Keys
      modifies this
      ensures Since(old(Now()), RefNames(r), {})
      decreases Absent(), 1, r
    {
      match r
      case Resolved(name) => AddType(name);
      case Unresolved(_) => NothingIsAdded(all, declared, Now());
      case ListRef(of) => AddRef(of);
      case NonNullRef(of) => AddRef(of);
    }

    method AddInputs(inputs: seq<InputValue>)
      requires Closed(all) && InputNames(inputs) <= all.Keys
      modifies this
      ensures Since(old(Now()), InputNames(inputs), InputDirectives(inputs))
      decreases Absent(), 2
    {
      hide Extends;
      NothingIsAdded(all, declared, Now());
      for i := 0 to |inputs|
        invariant Since(old(Now()), InputNames(inputs[..i]), InputDirectives(inputs[..i]))
        invariant Absent() <= old(Absent())
      {
        InputNamesWithin(inputs, i);
        ghost var a, names, own := Now(), RefNames(inputs[i].typ), NamesOf(inputs[i].directives);
        AddRef(inputs[i].typ);
        ghost var b := Now();
        AddDirectives(inputs[i].directives);
        ExtendsTwice(all, declared, a, b, Now(), names, {}, {}, own);
        ExtendsTwice(all, declared, old(Now()), a, Now(), InputNames(inputs[..i]), InputDirectives(inputs[..i]),
                     names + {}, {} + own);
        assert names + {} == names && {} + own == own;
        ExtendsLeavesLess(all, declared, a, Now(), names, own);
      }
      assert inputs[..|inputs|] == inputs;
    }

    method AddField(f: Field)
      requires Closed(all) && RefNames(f.typ) + InputNames(f.args) <= all.Keys
      modifies this
      ensures Since(old(Now()), RefNames(f.typ) + InputNames(f.args), NamesOf(f.directives) + InputDirectives(f.args))
      decreases Absent(), 3
    {
      hide Extends, InputNames, RefNames, NamesOf, InputDirectives;
      AddDirectives(f.directives);
      ghost var a, names, own := Now(), RefNames(f.typ), NamesOf(f.directives);
      AddRef(f.typ);
      ExtendsTwice(all, declared, old(Now()), a, Now(), {}, own, names, {});
      assert {} + names == names && own + {} == own;
      ghost var b := Now();
      ExtendsLeavesLess(all, declared, old(Now()), b, names, own);
      AddInputs(f.args);
      ExtendsTwice(all, declared, old(Now()), b, Now(), names, own, InputNames(f.args), InputDirectives(f.args));
    }

    method AddFields(fields: seq<Field>)
      requires Closed(all) && FieldNames(fields) <= all.Keys
      modifies this
      ensures Since(old(Now()), FieldNames(fields), FieldDirectives(fields))
      decreases Absent(), 4
    {
      hide Extends;
      NothingIsAdded(all, declared, Now());
      for i := 0 to |fields|
        invariant Since(old(Now()), FieldNames(fields[..i]), FieldDirectives(fields[..i]))
        invariant Absent() <= old(Absent())
      {
        FieldNamesWithin(fields, i);
        ghost var a := Now();
        ghost var names := RefNames(fields[i].typ) + InputNames(fields[i].args);
        ghost var own := NamesOf(fields[i].directives) + InputDirectives(fields[i].args);
        AddField(fields[i]);
        ExtendsTwice(all, declared, old(Now()), a, Now(), FieldNames(fields[..i]), FieldDirectives(fields[..i]), names,
                     own);
        ExtendsLeavesLess(all, declared, a, Now(), names, own);
      }
      assert fields[..|fields|] == fields;
    }

    method AddMembers(members: seq<string>)
      requires Closed(all) && MemberNames(members) <= all.Keys
      modifies this
      ensures Since(old(Now()), MemberNames(members), {})
      decreases Absent(), 2
    {
      hide Extends;
      NothingIsAdded(all, declared, Now());
      assert MemberNames(members[..0]) == {};
      for i := 0 to |members|
        invariant Since(old(Now()), MemberNames(members[..i]), {})
        invariant Absent() <= old(Absent())
      {
        ghost var a := Now();
        AddType(members[i]);
        ExtendsTwice(all, declared, old(Now()), a, Now(), MemberNames(members[..i]), {}, {members[i]}, {});
        NoneAndNone();
        assert MemberNames(members[..i + 1]) == MemberNames(members[..i]) + {members[i]};
        ExtendsLeavesLess(all, declared, a, Now(), {members[i]}, {});
      }
      assert members[..|members|] == members;
    }

    method AddEnumValues(values: seq<seq<string>>)
      modifies this`directives
      ensures Since(old(Now()), {}, EnumDirectives(values))
    {
      hide Extends;
      NothingIsAdded(all, declared, Now());
      for i := 0 to |values|
        invariant Since(old(Now()), {}, EnumDirectives(values[..i]))
      {
        ghost var a := Now();
        AddDirectives(values[i]);
        ExtendsTwice(all, declared, old(Now()), a, Now(), {}, EnumDirectives(values[..i]), {}, NamesOf(values[i]));
        NoneAndNone();
        assert values[..i + 1][..i] == values[..i];
      }
      assert values[..|values|] == values;
    }

    /** The entry point: the types added are exactly those that can be reached from the receiver without
        passing through a name already there, nothing already there changes, no type added lacks a type it
        refers to, and the directives added are those written in the types added. */
    method AddIfMissing(name: string)
      requires Closed(all) && name in all
      modifies this
      ensures forall n :: n in old(types) ==> n in types && types[n] == old(types)[n]
      ensures forall n :: n in types && n !in old(types) <==> Reaches(all, old(types).Keys, name, n)
      ensures forall n :: n in types && n !in old(types) ==>
                n in all && types[n] == all[n] && Successors(types[n]) <= types.Keys
      ensures name in types
      ensures directives == WithDirectives(declared, old(directives), DirectivesOfNew(all, old(types).Keys, types.Keys))
      ensures forall x ::
                EntryIsRight(declared, old(directives), directives,
                             NewlyCarried(all, old(types).Keys, types.Keys, x), x)
      ensures forall n, m :: n in types && n !in old(types) && Needs(types[n], m) ==> m in types
    {
      hide EntryIsRight, NewlyCarried, WithDirectives, Needs;
      AddType(name);
      ghost var needed := DirectivesOfNew(all, old(types).Keys, types.Keys);
      assert {} + needed == needed;
      forall n
        ensures n in types && n !in old(types) <==> Reaches(all, old(types).Keys, name, n)
      {
        AddedIffReachable(all, old(types), types, name, n);
      }
      forall n | n in types && n !in old(types)
        ensures n in all && types[n] == all[n] && Successors(types[n]) <= types.Keys
      {
        assert Added(all, old(types), types, {name}, n);
      }
      forall x
        ensures EntryIsRight(declared, old(directives), directives,
                             NewlyCarried(all, old(types).Keys, types.Keys, x), x)
      {
        EntriesAreRight(all, declared, old(directives), directives, old(types).Keys, types.Keys, x);
      }
      forall n, m | n in types && n !in old(types) && Needs(types[n], m)
        ensures m in types
      {
        SuccessorsIff(types[n], m);
      }
    }
  }

  /** An object is copied without the interface it implements. */
  lemma InterfaceStaysBehind(after: Types)
    requires Grew(map["Dog" := Object([], ["Pet"], []), "Pet" := Interface([], [])], map[], after, {"Dog"})
    ensures "Dog" in after && "Pet" !in after
  {
    hide Successors;
    var all: Types := map["Dog" := Object([], ["Pet"], []), "Pet" := Interface([], [])];
    AddedIffReachable(all, map[], after, "Dog", "Pet");
    SuccessorsIff(all["Dog"], "Pet");
    SuccessorsIff(all["Pet"], "Pet");
    if Reaches(all, {}, "Dog", "Pet") {
      var path :| IsPath(all, {}, path) && path[0] == "Dog" && path[|path| - 1] == "Pet";
      assert path[|path| - 2] in all;
    }
  }

  lemma ExtendsLeavesLess(all: Types, declared: map<string, int>, a: State, b: State, roots: set<string>,
                          own: set<string>)
    requires Extends(all, declared, a, b, roots, own)
    ensures all.Keys - b.types.Keys <= all.Keys - a.types.Keys
  {
  }

  lemma NoneAndNone()
    ensures (var none: set<string> := {}; none + {} == none)
  {
  }

  lemma NothingToAdd(all: Types, declared: map<string, int>, a: State, name: string)
    requires name in a.types
    ensures Extends(all, declared, a, a, {name}, {})
  {
    ExtendsBySome(all, declared, a, {});
    assert WithDirectives(declared, a.directives, {}) == a.directives;
  }

  lemma NothingIsAdded(all: Types, declared: map<string, int>, a: State)
    ensures Extends(all, declared, a, a, {}, {})
  {
    ExtendsBySome(all, declared, a, {});
    assert WithDirectives(declared, a.directives, {}) == a.directives;
  }

  lemma {:induction false} InputNamesWithin(inputs: seq<InputValue>, i: nat)
    requires i < |inputs|
    ensures InputNames(inputs[..i + 1]) == InputNames(inputs[..i]) + RefNames(inputs[i].typ)
    ensures InputDirectives(inputs[..i + 1]) == InputDirectives(inputs[..i]) + NamesOf(inputs[i].directives)
    ensures RefNames(inputs[i].typ) <= InputNames(inputs)
    decreases |inputs|
  {
    assert inputs[..i + 1][..i] == inputs[..i];
    if i < |inputs| - 1 {
      InputNamesWithin(inputs[..|inputs| - 1], i);
    }
  }

  lemma {:induction false} FieldNamesWithin(fields: seq<Field>, i: nat)
    requires i < |fields|
    ensures FieldNames(fields[..i + 1]) ==
            FieldNames(fields[..i]) + (RefNames(fields[i].typ) + InputNames(fields[i].args))
    ensures FieldDirectives(fields[..i + 1]) ==
            FieldDirectives(fields[..i]) + (NamesOf(fields[i].directives) + InputDirectives(fields[i].args))
    ensures RefNames(fields[i].typ) <= FieldNames(fields) && InputNames(fields[i].args) <= FieldNames(fields)
    decreases |fields|
  {
    assert fields[..i + 1][..i] == fields[..i];
    if i < |fields| - 1 {
      FieldNamesWithin(fields[..|fields| - 1], i);
    }
  }
}
