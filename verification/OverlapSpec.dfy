/**
 When the fields of a selection set can be merged.  Selections have an identity
 (the validator keeps tables by it), so a document is a table of nodes, the
 selections below a node having smaller numbers.
 */
module OverlapSpec {
  import opened Wrappers
  import Query
  import Evaluation
  import Symbols

  datatype Node =
    | Field(alias: string, name: string, args: seq<Query.Argument>, children: seq<nat>, at: nat)
    | Inline(children: seq<nat>)
    | Spread(name: string)

  datatype Fragment = Fragment(name: string, selections: seq<nat>)

  /** The definition of a field and the type it is selected on, where they are known. */
  datatype FieldInfo = FieldInfo(typ: Option<Query.Type>, parent: Option<string>)

  /** `info` holds what the validator finds out about each field; `leaves` are the scalar and enum types.  `blind`
      says whether arguments are taken with null for every variable, as the validator takes them, or with all values. */
  datatype Doc = Doc(nodes: seq<Node>, fragments: seq<Fragment>, info: seq<FieldInfo>, leaves: set<string>,
                     read: Evaluation.Reader, blind: bool)
  {
    function Blind(): Doc {
      this.(blind := true)
    }

    function Sighted(): Doc {
      this.(blind := false)
    }

    function Children(n: nat): seq<nat>
      requires n < |nodes|
    {
      match nodes[n]
      case Field(_, _, _, children, _) => children
      case Inline(children) => children
      case Spread(_) => []
    }

    predicate Has(ids: seq<nat>) {
      forall i :: 0 <= i < |ids| ==> ids[i] < |nodes|
    }

    ghost predicate WellFormed() {
      && |info| == |nodes|
      && (forall n, i :: 0 <= n < |nodes| && 0 <= i < |Children(n)| ==> Children(n)[i] < n)
      && (forall f :: f in fragments ==> Has(f.selections))
    }

    ghost predicate SpreadFree() {
      forall n :: 0 <= n < |nodes| ==> !nodes[n].Spread?
    }

    /** No argument uses a variable. */
    ghost predicate VariableFree() {
      forall n :: 0 <= n < |nodes| && nodes[n].Field? ==> AllVariableFree(nodes[n].args)
    }

    /** No field has two arguments of one name. */
    ghost predicate UniqueArgs() {
      forall n :: 0 <= n < |nodes| && nodes[n].Field? ==> DistinctNames(nodes[n].args)
    }
  }

  function GetFragment(fragments: seq<Fragment>, name: string): (r: Option<Fragment>)
    ensures r.Some? ==> r.value in fragments
  {
    if fragments == [] then None
    else if fragments[0].name == name then Some(fragments[0])
    else GetFragment(fragments[1..], name)
  }

  // ----- types -----

  function TypesCompatible(leaves: set<string>, a: Query.Type, b: Query.Type): bool {
    if a.ListOf? || b.ListOf? then a.ListOf? && b.ListOf? && TypesCompatible(leaves, a.of, b.of)
    else if a.NonNullOf? || b.NonNullOf? then a.NonNullOf? && b.NonNullOf? && TypesCompatible(leaves, a.of, b.of)
    else if a.name in leaves || b.name in leaves then a == b
    else true
  }

  /** What a response of a type looks like: its lists, its nulls, and the scalar or enum inside. */
  datatype Shape = Leaf(name: string) | Composite | ListShape(of: Shape) | NonNullShape(of: Shape)

  function ShapeOf(leaves: set<string>, t: Query.Type): Shape {
    match t
    case ListOf(of) => ListShape(ShapeOf(leaves, of))
    case NonNullOf(of) => NonNullShape(ShapeOf(leaves, of))
    case Named(name) => if name in leaves then Leaf(name) else Composite
  }

  lemma {:induction false} CompatibleIffSameShape(leaves: set<string>, a: Query.Type, b: Query.Type)
    ensures TypesCompatible(leaves, a, b) <==> ShapeOf(leaves, a) == ShapeOf(leaves, b)
    decreases a
  {
    if (a.ListOf? && b.ListOf?) || (a.NonNullOf? && b.NonNullOf?) {
      CompatibleIffSameShape(leaves, a.of, b.of);
    }
  }

  // ----- arguments -----

  ghost predicate DistinctNames(args: seq<Query.Argument>) {
    forall i, j :: 0 <= i < j < |args| ==> args[i].name != args[j].name
  }

  function GetArgument(args: seq<Query.Argument>, name: string): Option<Query.Literal> {
    if args == [] then None
    else if args[0].name == name then Some(args[0].value)
    else GetArgument(args[1..], name)
  }

  function Constant(read: Evaluation.Reader, lit: Query.Literal): Evaluation.Datum {
    Evaluation.Evaluate(read, map[], lit)
  }

  function ArgumentsConflict(read: Evaluation.Reader, a: seq<Query.Argument>, b: seq<Query.Argument>): bool {
    if |a| != |b| then true else MissesSome(read, a, b)
  }

  /** Some argument of `a` is missing or different in `b`. */
  function MissesSome(read: Evaluation.Reader, a: seq<Query.Argument>, b: seq<Query.Argument>): bool {
    if a == [] then false
    else
      var v := GetArgument(b, a[0].name);
      v.None? || Constant(read, a[0].value) != Constant(read, v.value) || MissesSome(read, a[1..], b)
  }

  /** The values the arguments give by name. */
  function ArgumentMap(read: Evaluation.Reader, args: seq<Query.Argument>): map<string, Evaluation.Datum> {
    if args == [] then map[]
    else ArgumentMap(read, args[1..])[args[0].name := Constant(read, args[0].value)]
  }

  lemma {:induction false} ArgumentMapGets(read: Evaluation.Reader, args: seq<Query.Argument>, name: string)
    ensures GetArgument(args, name).Some? <==> name in ArgumentMap(read, args)
    ensures name in ArgumentMap(read, args) ==>
              ArgumentMap(read, args)[name] == Constant(read, GetArgument(args, name).value)
    ensures name in ArgumentMap(read, args) <==> exists i :: 0 <= i < |args| && args[i].name == name
  {
    if args != [] {
      ArgumentMapGets(read, args[1..], name);
      if name in ArgumentMap(read, args) && args[0].name != name {
        var i :| 0 <= i < |args| - 1 && args[1..][i].name == name;
        assert args[i + 1].name == name;
      }
      assert forall i :: 0 < i < |args| ==> args[i] == args[1..][i - 1];
    }
  }

  lemma {:induction false} ArgumentMapSize(read: Evaluation.Reader, args: seq<Query.Argument>)
    requires DistinctNames(args)
    ensures |ArgumentMap(read, args)| == |args|
  {
    if args != [] {
      ArgumentMapSize(read, args[1..]);
      ArgumentMapGets(read, args[1..], args[0].name);
    }
  }

  lemma {:induction false} MissesSomeIff(read: Evaluation.Reader, a: seq<Query.Argument>, b: seq<Query.Argument>)
    requires DistinctNames(a)
    ensures !MissesSome(read, a, b) <==>
            forall n :: n in ArgumentMap(read, a) ==>
              n in ArgumentMap(read, b) && ArgumentMap(read, a)[n] == ArgumentMap(read, b)[n]
  {
    if a != [] {
      MissesSomeIff(read, a[1..], b);
      ArgumentMapGets(read, b, a[0].name);
      ArgumentMapGets(read, a[1..], a[0].name);
      var m, rest := ArgumentMap(read, a), ArgumentMap(read, a[1..]);
      assert a[0].name !in rest;
      assert m == rest[a[0].name := Constant(read, a[0].value)];
      assert forall n :: n in rest ==> n in m && m[n] == rest[n];
    }
  }

  /** Arguments differ exactly if they give different values by name, whatever the order they are written in. */
  lemma ArgumentsConflictIff(read: Evaluation.Reader, a: seq<Query.Argument>, b: seq<Query.Argument>)
    requires DistinctNames(a) && DistinctNames(b)
    ensures ArgumentsConflict(read, a, b) <==> ArgumentMap(read, a) != ArgumentMap(read, b)
  {
    MissesSomeIff(read, a, b);
    ArgumentMapSize(read, a);
    ArgumentMapSize(read, b);
    var x, y := ArgumentMap(read, a), ArgumentMap(read, b);
    if |a| == |b| && !MissesSome(read, a, b) {
      assert x.Keys <= y.Keys;
      SameSizeSubset(x.Keys, y.Keys);
      assert x == y;
    }
  }

  /** The values the arguments give by name under some variables. */
  function ValuesByName(read: Evaluation.Reader, vars: map<string, Evaluation.Datum>, args: seq<Query.Argument>):
    map<string, Evaluation.Datum>
  {
    if args == [] then map[]
    else ValuesByName(read, vars, args[1..])[args[0].name := Evaluation.Evaluate(read, vars, args[0].value)]
  }

  /** The arguments give the same values whatever the variables are. */
  ghost predicate SameArguments(read: Evaluation.Reader, a: seq<Query.Argument>, b: seq<Query.Argument>) {
    forall vars :: ValuesByName(read, vars, a) == ValuesByName(read, vars, b)
  }

  predicate AllVariableFree(args: seq<Query.Argument>) {
    forall a :: a in args ==> Evaluation.VariableFree(a.value)
  }

  lemma {:induction false} ValuesWithoutVariables(
      read: Evaluation.Reader, vars: map<string, Evaluation.Datum>, args: seq<Query.Argument>)
    requires AllVariableFree(args) || vars == map[]
    ensures ValuesByName(read, vars, args) == ArgumentMap(read, args)
  {
    if args != [] {
      ValuesWithoutVariables(read, vars, args[1..]);
      if vars != map[] {
        Evaluation.VariablesDoNotMatter(read, vars, map[], args[0].value);
      }
    }
  }

  /** What the arguments give by name while variables are left open. */
  function SymbolsByName(read: Evaluation.Reader, args: seq<Query.Argument>): map<string, Symbols.Symbol> {
    if args == [] then map[]
    else SymbolsByName(read, args[1..])[args[0].name := Symbols.Symbolic(read, args[0].value)]
  }

  lemma {:induction false} ValuesOfSymbols(
      read: Evaluation.Reader, vars: map<string, Evaluation.Datum>, args: seq<Query.Argument>)
    ensures Symbols.Closed(vars, Symbols.Entries(SymbolsByName(read, args))) ==
            Evaluation.Object(ValuesByName(read, vars, args))
  {
    hide Symbols.Closed, Symbols.Symbolic, Evaluation.Evaluate;
    if args == [] {
      Symbols.NoEntries(vars);
    } else {
      ValuesOfSymbols(read, vars, args[1..]);
      Symbols.ClosedIsValue(read, vars, args[0].value);
      Symbols.OneMoreEntry(vars, SymbolsByName(read, args[1..]), args[0].name, Symbols.Symbolic(read, args[0].value));
    }
  }

  /** Arguments are the same under all variables exactly if they are with variables left open. */
  lemma SameArgumentsIff(read: Evaluation.Reader, a: seq<Query.Argument>, b: seq<Query.Argument>)
    ensures SameArguments(read, a, b) <==> SymbolsByName(read, a) == SymbolsByName(read, b)
  {
    hide SymbolsByName, ValuesByName;
    var s, t := Symbols.Entries(SymbolsByName(read, a)), Symbols.Entries(SymbolsByName(read, b));
    forall vars: map<string, Evaluation.Datum>
      ensures Symbols.Closed(vars, s) == Evaluation.Object(ValuesByName(read, vars, a))
      ensures Symbols.Closed(vars, t) == Evaluation.Object(ValuesByName(read, vars, b))
    {
      ValuesOfSymbols(read, vars, a);
      ValuesOfSymbols(read, vars, b);
    }
    if SameArguments(read, a, b) {
      forall vars: map<string, Evaluation.Datum>
        ensures Symbols.Closed(vars, s) == Symbols.Closed(vars, t)
      {
        assert ValuesByName(read, vars, a) == ValuesByName(read, vars, b);
      }
      Symbols.SameSymbol(s, t);
    }
  }

  /** A conflict found is one.  The comparison is right exactly if the arguments, when they are alike with null for
      every variable, are alike with variables left open. */
  lemma ConflictMeansDifferent(read: Evaluation.Reader, a: seq<Query.Argument>, b: seq<Query.Argument>)
    requires DistinctNames(a) && DistinctNames(b)
    ensures ArgumentsConflict(read, a, b) <==> ValuesByName(read, map[], a) != ValuesByName(read, map[], b)
    ensures ArgumentsConflict(read, a, b) ==> !SameArguments(read, a, b)
    ensures (ArgumentsConflict(read, a, b) <==> !SameArguments(read, a, b)) <==>
            (ValuesByName(read, map[], a) == ValuesByName(read, map[], b) ==>
               SymbolsByName(read, a) == SymbolsByName(read, b))
  {
    hide ArgumentMap, ArgumentsConflict, ValuesByName, SymbolsByName;
    ArgumentsConflictIff(read, a, b);
    ValuesWithoutVariables(read, map[], a);
    ValuesWithoutVariables(read, map[], b);
    SameArgumentsIff(read, a, b);
  }

  /** Without variables it is always right. */
  lemma AlikeWithoutVariables(read: Evaluation.Reader, a: seq<Query.Argument>, b: seq<Query.Argument>)
    requires AllVariableFree(a) && AllVariableFree(b)
    ensures SameArguments(read, a, b) <==> ValuesByName(read, map[], a) == ValuesByName(read, map[], b)
  {
    hide ArgumentMap, ValuesByName;
    forall vars: map<string, Evaluation.Datum>
      ensures ValuesByName(read, vars, a) == ArgumentMap(read, a)
      ensures ValuesByName(read, vars, b) == ArgumentMap(read, b)
    {
      ValuesWithoutVariables(read, vars, a);
      ValuesWithoutVariables(read, vars, b);
    }
    assert SameArguments(read, a, b) ==> ValuesByName(read, map[], a) == ValuesByName(read, map[], b);
  }

  lemma SameSizeSubset(a: set<string>, b: set<string>)
    requires a <= b && |a| == |b|
    ensures a == b
  {
    assert |b - a| == 0;
  }

  // ----- which fields can be merged -----

  /** The fields of a selection, looking through inline fragments. */
  ghost function Flat(d: Doc, n: nat): (r: set<nat>)
    requires d.WellFormed() && n < |d.nodes|
    ensures forall m :: m in r ==> m <= n && d.nodes[m].Field?
    decreases n
  {
    match d.nodes[n]
    case Field(_, _, _, _, _) => {n}
    case Inline(children) =>
      assert children == d.Children(n);
      set i, m | 0 <= i < |children| && m in Flat(d, children[i]) :: m
    case Spread(_) => {}
  }

  ghost predicate AreFields(d: Doc, xs: set<nat>) {
    forall x :: x in xs ==> x < |d.nodes| && d.nodes[x].Field?
  }

  ghost function FlatAll(d: Doc, ids: seq<nat>): (r: set<nat>)
    requires d.WellFormed() && d.Has(ids)
    ensures AreFields(d, r)
  {
    set i, m | 0 <= i < |ids| && m in Flat(d, ids[i]) :: m
  }

  ghost predicate Alike(d: Doc, a: seq<Query.Argument>, b: seq<Query.Argument>) {
    if d.blind then ValuesByName(d.read, map[], a) == ValuesByName(d.read, map[], b) else SameArguments(d.read, a, b)
  }

  /** Two fields of one alias that cannot stand side by side, leaving what is below them aside. */
  ghost predicate Clash(d: Doc, x: nat, y: nat)
    requires d.WellFormed() && x < |d.nodes| && y < |d.nodes| && d.nodes[x].Field? && d.nodes[y].Field?
  {
    || TypesClash(d, x, y)
    || (SameParent(d, x, y) && (d.nodes[x].name != d.nodes[y].name ||
                                !Alike(d, d.nodes[x].args, d.nodes[y].args)))
  }

  ghost predicate TypesClash(d: Doc, x: nat, y: nat)
    requires d.WellFormed() && x < |d.nodes| && y < |d.nodes|
  {
    && d.info[x].typ.Some? && d.info[y].typ.Some?
    && ShapeOf(d.leaves, d.info[x].typ.value) != ShapeOf(d.leaves, d.info[y].typ.value)
  }

  ghost predicate SameParent(d: Doc, x: nat, y: nat)
    requires d.WellFormed() && x < |d.nodes| && y < |d.nodes|
  {
    d.info[x].parent.None? || d.info[y].parent.None? || d.info[x].parent == d.info[y].parent
  }

  ghost predicate Mergeable(d: Doc, x: nat, y: nat)
    requires d.WellFormed() && x < |d.nodes| && y < |d.nodes| && d.nodes[x].Field? && d.nodes[y].Field?
    decreases x + y
  {
    x == y || d.nodes[x].alias != d.nodes[y].alias ||
    (!Clash(d, x, y) &&
     forall x', y' :: x' in FlatAll(d, d.Children(x)) && y' in FlatAll(d, d.Children(y)) ==> Mergeable(d, x', y'))
  }

  lemma {:induction false} MergeableIsSymmetric(d: Doc, x: nat, y: nat)
    requires d.WellFormed() && x < |d.nodes| && y < |d.nodes| && d.nodes[x].Field? && d.nodes[y].Field?
    requires Mergeable(d, x, y)
    ensures Mergeable(d, y, x)
    decreases x + y
  {
    forall x', y' | x' in FlatAll(d, d.Children(x)) && y' in FlatAll(d, d.Children(y)) && Mergeable(d, x', y')
      ensures Mergeable(d, y', x')
    {
      MergeableIsSymmetric(d, x', y');
    }
  }

  ghost predicate SetsMerge(d: Doc, xs: set<nat>, ys: set<nat>)
    requires d.WellFormed() && AreFields(d, xs) && AreFields(d, ys)
  {
    forall x, y :: x in xs && y in ys ==> Mergeable(d, x, y)
  }

  /** Every field of one selection can be merged with every field of another. */
  ghost predicate NodesMerge(d: Doc, a: nat, b: nat)
    requires d.WellFormed() && a < |d.nodes| && b < |d.nodes|
  {
    SetsMerge(d, Flat(d, a), Flat(d, b))
  }

  lemma NodesMergeIsSymmetric(d: Doc, a: nat, b: nat)
    requires d.WellFormed() && a < |d.nodes| && b < |d.nodes| && NodesMerge(d, a, b)
    ensures NodesMerge(d, b, a)
  {
    forall x, y | x in Flat(d, b) && y in Flat(d, a)
      ensures Mergeable(d, x, y)
    {
      MergeableIsSymmetric(d, y, x);
    }
  }

  ghost predicate AllMerge(d: Doc, ids: seq<nat>)
    requires d.WellFormed() && d.Has(ids)
  {
    SetsMerge(d, FlatAll(d, ids), FlatAll(d, ids))
  }

  /** The selection set below a field, and those below its fields, can be merged. */
  ghost predicate FineField(d: Doc, x: nat)
    requires d.WellFormed() && x < |d.nodes| && d.nodes[x].Field?
    decreases x
  {
    AllMerge(d, d.Children(x)) && forall x' :: x' in FlatAll(d, d.Children(x)) ==> FineField(d, x')
  }

  /** All fields of a selection set can be merged, and so it is below each of them (section 5.3.2 of the
      GraphQL specification). */
  ghost predicate Fine(d: Doc, ids: seq<nat>)
    requires d.WellFormed() && d.Has(ids)
  {
    AllMerge(d, ids) && forall x :: x in FlatAll(d, ids) ==> FineField(d, x)
  }

  ghost predicate FineNode(d: Doc, a: nat)
    requires d.WellFormed() && a < |d.nodes|
  {
    NodesMerge(d, a, a) && forall x :: x in Flat(d, a) ==> FineField(d, x)
  }

  /** A selection set is fine if each selection is, and any two merge. */
  lemma FineFromNodes(d: Doc, ids: seq<nat>)
    requires d.WellFormed() && d.Has(ids)
    requires forall i :: 0 <= i < |ids| ==> FineNode(d, ids[i])
    requires forall i, j :: 0 <= i < j < |ids| ==> NodesMerge(d, ids[i], ids[j])
    ensures Fine(d, ids)
  {
    hide Mergeable, FineField, NodesMerge, Flat;
    forall x, y | x in FlatAll(d, ids) && y in FlatAll(d, ids)
      ensures Mergeable(d, x, y)
    {
      AnyTwoMerge(d, ids, x, y);
    }
    forall x | x in FlatAll(d, ids)
      ensures FineField(d, x)
    {
      var i :| 0 <= i < |ids| && x in Flat(d, ids[i]);
      assert FineNode(d, ids[i]);
    }
  }

  lemma AnyTwoMerge(d: Doc, ids: seq<nat>, x: nat, y: nat)
    requires d.WellFormed() && d.Has(ids) && x in FlatAll(d, ids) && y in FlatAll(d, ids)
    requires forall i :: 0 <= i < |ids| ==> FineNode(d, ids[i])
    requires forall i, j :: 0 <= i < j < |ids| ==> NodesMerge(d, ids[i], ids[j])
    ensures Mergeable(d, x, y)
  {
    hide Mergeable, FineField, Flat, SetsMerge;
    var i :| 0 <= i < |ids| && x in Flat(d, ids[i]);
    var j :| 0 <= j < |ids| && y in Flat(d, ids[j]);
    assert NodesMerge(d, ids[i], ids[j]) by {
      if i > j {
        NodesMergeIsSymmetric(d, ids[j], ids[i]);
      } else {
        assert FineNode(d, ids[i]);
      }
    }
    FieldsMerge(d, ids[i], ids[j], x, y);
  }

  lemma FieldsMerge(d: Doc, a: nat, b: nat, x: nat, y: nat)
    requires d.WellFormed() && a < |d.nodes| && b < |d.nodes| && NodesMerge(d, a, b)
    requires x in Flat(d, a) && y in Flat(d, b)
    ensures Mergeable(d, x, y)
  {
  }

  lemma FineNodeToChildren(d: Doc, a: nat)
    requires d.WellFormed() && a < |d.nodes| && FineNode(d, a)
    ensures Fine(d, d.Children(a))
  {
    if d.nodes[a].Field? {
      assert a in Flat(d, a);
      assert FineField(d, a);
    } else {
      assert Flat(d, a) == FlatAll(d, d.Children(a));
    }
  }

  lemma FineNodeFromChildren(d: Doc, a: nat)
    requires d.WellFormed() && a < |d.nodes| && !d.nodes[a].Spread? && Fine(d, d.Children(a))
    ensures FineNode(d, a)
  {
    if d.nodes[a].Inline? {
      assert Flat(d, a) == FlatAll(d, d.Children(a));
    }
  }

  lemma FineChildren(d: Doc, a: nat, c: nat)
    requires d.WellFormed() && a < |d.nodes| && FineNode(d, a) && c in d.Children(a)
    ensures c < a && FineNode(d, c)
  {
    assert forall x :: x in Flat(d, c) ==> x in FlatAll(d, d.Children(a));
    if d.nodes[a].Field? {
      assert a in Flat(d, a);
      assert FineField(d, a);
    } else {
      assert Flat(d, a) == FlatAll(d, d.Children(a));
    }
  }

  lemma FineMeansNodes(d: Doc, ids: seq<nat>, i: nat)
    requires d.WellFormed() && d.Has(ids) && Fine(d, ids) && i < |ids|
    ensures FineNode(d, ids[i]) && forall j :: 0 <= j < |ids| ==> NodesMerge(d, ids[i], ids[j])
  {
    assert forall j, x :: 0 <= j < |ids| && x in Flat(d, ids[j]) ==> x in FlatAll(d, ids);
  }

  // ----- why two fields conflict -----

  datatype Reason = Types | Names(first: string, second: string) | Arguments | Subfields(alias: string, why: Reason)

  /** A reason is backed by two fields that have it. */
  ghost predicate Explains(d: Doc, x: nat, y: nat, r: Reason)
    requires d.WellFormed() && x < |d.nodes| && y < |d.nodes| && d.nodes[x].Field? && d.nodes[y].Field?
    decreases r
  {
    && x != y && d.nodes[x].alias == d.nodes[y].alias
    && match r
       case Types => TypesClash(d, x, y)
       case Names(m, n) => SameParent(d, x, y) && d.nodes[x].name == m && d.nodes[y].name == n && m != n
       case Arguments => SameParent(d, x, y) && !Alike(d, d.nodes[x].args, d.nodes[y].args)
       case Subfields(alias, why) =>
         exists x', y' :: x' in FlatAll(d, d.Children(x)) && y' in FlatAll(d, d.Children(y))
           && d.nodes[x'].alias == alias && (Explains(d, x', y', why) || Explains(d, y', x', why))
  }

  lemma {:induction false} ExplainedDoNotMerge(d: Doc, x: nat, y: nat, r: Reason)
    requires d.WellFormed() && x < |d.nodes| && y < |d.nodes| && d.nodes[x].Field? && d.nodes[y].Field?
    requires Explains(d, x, y, r)
    ensures !Mergeable(d, x, y)
    decreases r
  {
    if r.Subfields? {
      var x', y' :| x' in FlatAll(d, d.Children(x)) && y' in FlatAll(d, d.Children(y))
           && d.nodes[x'].alias == r.alias && (Explains(d, x', y', r.why) || Explains(d, y', x', r.why));
      if Explains(d, x', y', r.why) {
        ExplainedDoNotMerge(d, x', y', r.why);
      } else {
        ExplainedDoNotMerge(d, y', x', r.why);
        if Mergeable(d, x', y') {
          MergeableIsSymmetric(d, x', y');
        }
      }
    }
  }

  // ----- what the validator does not see -----

  /** Two fields that are alike with null for every variable, and are not with variables left open. */
  ghost predicate Hidden(d: Doc, x: nat, y: nat)
    requires d.WellFormed() && x < |d.nodes| && y < |d.nodes| && d.nodes[x].Field? && d.nodes[y].Field?
  {
    && SameParent(d, x, y) && d.nodes[x].name == d.nodes[y].name
    && ValuesByName(d.read, map[], d.nodes[x].args) == ValuesByName(d.read, map[], d.nodes[y].args)
    && SymbolsByName(d.read, d.nodes[x].args) != SymbolsByName(d.read, d.nodes[y].args)
  }

  /** Comparing two fields, and those below them, meets no such pair. */
  ghost predicate Open(d: Doc, x: nat, y: nat)
    requires d.WellFormed() && x < |d.nodes| && y < |d.nodes| && d.nodes[x].Field? && d.nodes[y].Field?
    decreases x + y
  {
    x == y || d.nodes[x].alias != d.nodes[y].alias ||
    (!Hidden(d, x, y) &&
     forall x', y' :: x' in FlatAll(d, d.Children(x)) && y' in FlatAll(d, d.Children(y)) ==> Open(d, x', y'))
  }

  ghost predicate AllOpen(d: Doc, ids: seq<nat>)
    requires d.WellFormed() && d.Has(ids)
  {
    forall x, y :: x in FlatAll(d, ids) && y in FlatAll(d, ids) ==> Open(d, x, y)
  }

  ghost predicate OpenField(d: Doc, x: nat)
    requires d.WellFormed() && x < |d.nodes| && d.nodes[x].Field?
    decreases x
  {
    AllOpen(d, d.Children(x)) && forall x' :: x' in FlatAll(d, d.Children(x)) ==> OpenField(d, x')
  }

  /** Nor does comparing all fields of a selection set, and of those below. */
  ghost predicate NothingHidden(d: Doc, ids: seq<nat>)
    requires d.WellFormed() && d.Has(ids)
  {
    AllOpen(d, ids) && forall x :: x in FlatAll(d, ids) ==> OpenField(d, x)
  }

  lemma {:induction false} SameFlat(d: Doc, n: nat)
    requires d.WellFormed() && n < |d.nodes|
    ensures d.Sighted().WellFormed() && Flat(d.Sighted(), n) == Flat(d, n)
    decreases n
  {
    var e := d.Sighted();
    assert forall m: nat :: m < |d.nodes| ==> e.Children(m) == d.Children(m);
    match d.nodes[n]
    case Inline(children) =>
      assert children == d.Children(n);
      forall i | 0 <= i < |children|
        ensures Flat(e, children[i]) == Flat(d, children[i])
      {
        SameFlat(d, children[i]);
      }
    case _ =>
  }

  lemma SightedHas(d: Doc)
    requires d.WellFormed()
    ensures d.Sighted().WellFormed()
    ensures forall n: nat :: n < |d.nodes| ==> d.Sighted().Children(n) == d.Children(n)
  {
    var e := d.Sighted();
    assert forall m: nat :: m < |d.nodes| ==> e.Children(m) == d.Children(m);
  }

  lemma SameFlatAll(d: Doc, ids: seq<nat>)
    requires d.WellFormed() && d.Has(ids)
    ensures d.Sighted().WellFormed() && d.Sighted().Has(ids) && FlatAll(d.Sighted(), ids) == FlatAll(d, ids)
  {
    hide Flat;
    SightedHas(d);
    forall i | 0 <= i < |ids|
      ensures Flat(d.Sighted(), ids[i]) == Flat(d, ids[i])
    {
      SameFlat(d, ids[i]);
    }
  }

  lemma ClashSighted(d: Doc, x: nat, y: nat)
    requires d.WellFormed() && d.blind && x < |d.nodes| && y < |d.nodes| && d.nodes[x].Field? && d.nodes[y].Field?
    ensures d.Sighted().WellFormed()
    ensures Clash(d.Sighted(), x, y) <==> Clash(d, x, y) || (!TypesClash(d, x, y) && Hidden(d, x, y))
  {
    hide ValuesByName, SymbolsByName, ShapeOf;
    SightedHas(d);
    var e, a, b := d.Sighted(), d.nodes[x].args, d.nodes[y].args;
    assert TypesClash(e, x, y) == TypesClash(d, x, y) && SameParent(e, x, y) == SameParent(d, x, y);
    SameArgumentsIff(d.read, a, b);
    SameUnderNull(d.read, a, b);
  }

  lemma SameUnderNull(read: Evaluation.Reader, a: seq<Query.Argument>, b: seq<Query.Argument>)
    ensures SameArguments(read, a, b) ==> ValuesByName(read, map[], a) == ValuesByName(read, map[], b)
  {
  }

  lemma {:induction false} MergeableSighted(d: Doc, x: nat, y: nat)
    requires d.WellFormed() && d.blind && x < |d.nodes| && y < |d.nodes| && d.nodes[x].Field? && d.nodes[y].Field?
    ensures d.Sighted().WellFormed()
    ensures Mergeable(d.Sighted(), x, y) <==> Mergeable(d, x, y) && Open(d, x, y)
    decreases x + y
  {
    hide Clash, Hidden, FlatAll;
    SightedHas(d);
    var e := d.Sighted();
    if x != y && d.nodes[x].alias == d.nodes[y].alias {
      ClashSighted(d, x, y);
      ClashByTypes(d, x, y);
      SameFlatAll(d, d.Children(x));
      SameFlatAll(d, d.Children(y));
      forall x', y' | x' in FlatAll(d, d.Children(x)) && y' in FlatAll(d, d.Children(y))
        ensures Mergeable(e, x', y') <==> Mergeable(d, x', y') && Open(d, x', y')
      {
        BelowIsLess(d, x, x');
        BelowIsLess(d, y, y');
        MergeableSighted(d, x', y');
      }
    }
  }

  lemma ClashByTypes(d: Doc, x: nat, y: nat)
    requires d.WellFormed() && x < |d.nodes| && y < |d.nodes| && d.nodes[x].Field? && d.nodes[y].Field?
    ensures TypesClash(d, x, y) ==> Clash(d, x, y)
  {
  }

  lemma BelowIsLess(d: Doc, x: nat, x': nat)
    requires d.WellFormed() && x < |d.nodes| && x' in FlatAll(d, d.Children(x))
    ensures x' < x && d.nodes[x'].Field?
  {
  }

  lemma AllMergeSighted(d: Doc, ids: seq<nat>)
    requires d.WellFormed() && d.blind && d.Has(ids)
    ensures d.Sighted().WellFormed() && d.Sighted().Has(ids)
    ensures AllMerge(d.Sighted(), ids) <==> AllMerge(d, ids) && AllOpen(d, ids)
  {
    hide Mergeable, Open, FlatAll;
    SightedHas(d);
    SameFlatAll(d, ids);
    forall x, y | x in FlatAll(d, ids) && y in FlatAll(d, ids)
      ensures Mergeable(d.Sighted(), x, y) <==> Mergeable(d, x, y) && Open(d, x, y)
    {
      MergeableSighted(d, x, y);
    }
  }

  lemma {:induction false} FineFieldSighted(d: Doc, x: nat)
    requires d.WellFormed() && d.blind && x < |d.nodes| && d.nodes[x].Field?
    ensures d.Sighted().WellFormed()
    ensures FineField(d.Sighted(), x) <==> FineField(d, x) && OpenField(d, x)
    decreases x
  {
    hide AllMerge, AllOpen, FlatAll;
    SightedHas(d);
    SameFlatAll(d, d.Children(x));
    AllMergeSighted(d, d.Children(x));
    forall x' | x' in FlatAll(d, d.Children(x))
      ensures FineField(d.Sighted(), x') <==> FineField(d, x') && OpenField(d, x')
    {
      BelowIsLess(d, x, x');
      FineFieldSighted(d, x');
    }
  }

  /** Fields that the validator finds mergeable are so exactly if no pair is hidden from it. */
  lemma FineSighted(d: Doc, ids: seq<nat>)
    requires d.WellFormed() && d.blind && d.Has(ids)
    ensures d.Sighted().WellFormed() && d.Sighted().Has(ids)
    ensures Fine(d.Sighted(), ids) <==> Fine(d, ids) && NothingHidden(d, ids)
  {
    hide AllMerge, AllOpen, FlatAll, FineField, OpenField;
    SightedHas(d);
    SameFlatAll(d, ids);
    AllMergeSighted(d, ids);
    forall x | x in FlatAll(d, ids)
      ensures FineField(d.Sighted(), x) <==> FineField(d, x) && OpenField(d, x)
    {
      FineFieldSighted(d, x);
    }
  }

  // ----- without variables nothing is hidden -----

  lemma NotHidden(d: Doc, x: nat, y: nat)
    requires d.WellFormed() && d.VariableFree() && x < |d.nodes| && y < |d.nodes|
    requires d.nodes[x].Field? && d.nodes[y].Field?
    ensures !Hidden(d, x, y)
  {
    hide ValuesByName, SymbolsByName;
    AlikeWithoutVariables(d.read, d.nodes[x].args, d.nodes[y].args);
    SameArgumentsIff(d.read, d.nodes[x].args, d.nodes[y].args);
  }

  lemma {:induction false} AllAreOpen(d: Doc, x: nat, y: nat)
    requires d.WellFormed() && d.VariableFree() && x < |d.nodes| && y < |d.nodes|
    requires d.nodes[x].Field? && d.nodes[y].Field?
    ensures Open(d, x, y)
    decreases x + y
  {
    hide Hidden, FlatAll;
    NotHidden(d, x, y);
    forall x', y' | x' in FlatAll(d, d.Children(x)) && y' in FlatAll(d, d.Children(y))
      ensures Open(d, x', y')
    {
      BelowIsLess(d, x, x');
      BelowIsLess(d, y, y');
      AllAreOpen(d, x', y');
    }
  }

  lemma {:induction false} AllFieldsAreOpen(d: Doc, x: nat)
    requires d.WellFormed() && d.VariableFree() && x < |d.nodes| && d.nodes[x].Field?
    ensures OpenField(d, x)
    decreases x
  {
    hide Open, FlatAll;
    forall x', y' | x' in FlatAll(d, d.Children(x)) && y' in FlatAll(d, d.Children(x))
      ensures Open(d, x', y')
    {
      AllAreOpen(d, x', y');
    }
    forall x' | x' in FlatAll(d, d.Children(x))
      ensures OpenField(d, x')
    {
      BelowIsLess(d, x, x');
      AllFieldsAreOpen(d, x');
    }
  }

  lemma WithoutVariablesNothingHidden(d: Doc, ids: seq<nat>)
    requires d.WellFormed() && d.VariableFree() && d.Has(ids)
    ensures NothingHidden(d, ids)
  {
    hide Open, OpenField, FlatAll;
    forall x, y | x in FlatAll(d, ids) && y in FlatAll(d, ids)
      ensures Open(d, x, y)
    {
      AllAreOpen(d, x, y);
    }
    forall x | x in FlatAll(d, ids)
      ensures OpenField(d, x)
    {
      AllFieldsAreOpen(d, x);
    }
  }

  // ----- arguments with variables -----

  /** Two fields `f` with a variable for an argument. */
  function TwoVariables(read: Evaluation.Reader, a: string, b: string): Doc {
    var info := FieldInfo(Some(Query.Named("Int")), Some("Query"));
    Doc([Field("f", "f", [Query.Argument("x", Query.Variable(a))], [], 0),
         Field("f", "f", [Query.Argument("x", Query.Variable(b))], [], 1)],
        [], [info, info], {"Int"}, read, true)
  }

  /** The two are compared as if both variables were null, and are found to merge whatever the variables; they can
      be merged exactly if it is the same variable. */
  lemma VariablesAreNotCompared(read: Evaluation.Reader, a: string, b: string)
    ensures (var d := TwoVariables(read, a, b);
             && d.WellFormed() && d.SpreadFree() && d.UniqueArgs() && d.blind && d.Has([0, 1]) && Fine(d, [0, 1])
             && d.Sighted().WellFormed() && d.Sighted().Has([0, 1]) && (Fine(d.Sighted(), [0, 1]) <==> a == b))
  {
    hide Flat, FlatAll, Mergeable, Open, FineField, OpenField, Hidden;
    var d := TwoVariables(read, a, b);
    TwoFieldsFlat(read, a, b);
    TwoFieldsCompared(read, a, b, 0, 1);
    TwoFieldsCompared(read, a, b, 1, 0);
    TwoFieldsCompared(read, a, b, 0, 0);
    TwoFieldsCompared(read, a, b, 1, 1);
    FineSighted(d, [0, 1]);
  }

  lemma TwoFieldsCompared(read: Evaluation.Reader, a: string, b: string, x: nat, y: nat)
    requires x < 2 && y < 2
    ensures (var d := TwoVariables(read, a, b);
             d.WellFormed() && Mergeable(d, x, y) && (Open(d, x, y) <==> x == y || a == b) && FineField(d, x) &&
             OpenField(d, x))
  {
    hide ValuesByName, SymbolsByName, Flat, FlatAll;
    var d := TwoVariables(read, a, b);
    TwoFieldsFlat(read, a, b);
    VariableOnly(read, a);
    VariableOnly(read, b);
    assert d.nodes[x].args == [Query.Argument("x", Query.Variable(if x == 0 then a else b))];
    assert d.nodes[y].args == [Query.Argument("x", Query.Variable(if y == 0 then a else b))];
    assert map["x" := Symbols.Open(a)]["x"] == Symbols.Open(a) && map["x" := Symbols.Open(b)]["x"] == Symbols.Open(b);
  }

  lemma VariableOnly(read: Evaluation.Reader, name: string)
    ensures (var args := [Query.Argument("x", Query.Variable(name))];
             && ValuesByName(read, map[], args) == map["x" := Evaluation.Null]
             && SymbolsByName(read, args) == map["x" := Symbols.Open(name)])
  {
    assert [Query.Argument("x", Query.Variable(name))][1..] == [];
  }

  lemma TwoFieldsFlat(read: Evaluation.Reader, a: string, b: string)
    ensures (var d := TwoVariables(read, a, b);
             && d.WellFormed() && d.Has([0, 1]) && FlatAll(d, [0, 1]) == {0, 1}
             && FlatAll(d, d.Children(0)) == {} && FlatAll(d, d.Children(1)) == {})
  {
    var d := TwoVariables(read, a, b);
    assert [0, 1][0] == 0 && [0, 1][1] == 1;
    assert Flat(d, 0) == {0} && Flat(d, 1) == {1};
  }
}
