/**
 Query documents, as the parser builds them and the validator and the executor
 walk them.  Source locations are left out.
 */
module Query {

  import opened Wrappers

  /** A type reference; a schema's named types are told apart by name. */
  datatype Type = Named(name: string) | ListOf(of: Type) | NonNullOf(of: Type)

  datatype LiteralKind = IntLit | FloatLit | StringLit | BlockStringLit | IdentLit

  datatype Literal =
    | BasicLit(kind: LiteralKind, text: string)
    | ListLit(entries: seq<Literal>)
    | ObjectLit(fields: seq<ObjectField>)
    | NullLit
    | Variable(name: string)

  datatype ObjectField = ObjectField(name: string, value: Literal)

  datatype Argument = Argument(name: string, value: Literal)

  datatype Directive = Directive(name: string, args: seq<Argument>)

  /** A field as it is written; `schema` is the type the validator attached to it, if any. */
  datatype FieldSelection = FieldSelection(
    alias: string, name: string, args: seq<Argument>, directives: seq<Directive>,
    selections: seq<Selection>, schema: Option<Type>)

  /** `on` is empty in an untyped inline fragment. */
  datatype Selection =
    | Field(field: FieldSelection)
    | Inline(on: string, directives: seq<Directive>, selections: seq<Selection>)
    | Spread(name: string, directives: seq<Directive>)

  datatype Fragment = Fragment(name: string, on: string, directives: seq<Directive>, selections: seq<Selection>)

  datatype OperationType = QueryOp | MutationOp | SubscriptionOp

  datatype InputValue = InputValue(name: string, typ: Type, default: Option<Literal>, directives: seq<Directive>)

  datatype Operation = Operation(
    op: OperationType, name: string, vars: seq<InputValue>, directives: seq<Directive>, selections: seq<Selection>)

  datatype Document = Document(operations: seq<Operation>, fragments: seq<Fragment>)

  /** The first fragment with the given name. */
  function Lookup(fragments: seq<Fragment>, name: string): Option<Fragment> {
    if fragments == [] then None
    else if fragments[0].name == name then Some(fragments[0])
    else Lookup(fragments[1..], name)
  }

  lemma {:induction false} LookupFinds(fragments: seq<Fragment>, name: string)
    ensures Lookup(fragments, name).Some? ==>
              Lookup(fragments, name).value in fragments && Lookup(fragments, name).value.name == name
    ensures Lookup(fragments, name).None? <==> forall f :: f in fragments ==> f.name != name
  {
    if fragments != [] {
      LookupFinds(fragments[1..], name);
    }
  }

  /** Expanding fragments under `sels` nests at most `n` deep, counting fields and spreads; every spread is known. */
  ghost predicate Bounded(fragments: seq<Fragment>, sels: seq<Selection>, n: nat)
    decreases n, sels
  {
    forall s | s in sels :: BoundedOne(fragments, s, n)
  }

  ghost predicate BoundedOne(fragments: seq<Fragment>, s: Selection, n: nat)
    decreases n, s
  {
    match s
    case Field(f) => n > 0 && Bounded(fragments, f.selections, n - 1)
    case Inline(_, _, sels) => Bounded(fragments, sels, n)
    case Spread(name, _) =>
      n > 0 && Lookup(fragments, name).Some? && Bounded(fragments, Lookup(fragments, name).value.selections, n - 1)
  }

  lemma {:induction false} BoundedMonotone(fragments: seq<Fragment>, sels: seq<Selection>, n: nat, m: nat)
    requires Bounded(fragments, sels, n) && n <= m
    ensures Bounded(fragments, sels, m)
    decreases n, sels
  {
    forall s | s in sels
      ensures BoundedOne(fragments, s, m)
    {
      assert BoundedOne(fragments, s, n);
      match s
      case Field(f) => BoundedMonotone(fragments, f.selections, n - 1, m - 1);
      case Inline(_, _, sub) => BoundedMonotone(fragments, sub, n, m);
      case Spread(name, _) =>
        BoundedMonotone(fragments, Lookup(fragments, name).value.selections, n - 1, m - 1);
    }
  }

  function Max(a: nat, b: nat): nat {
    if a < b then b else a
  }

  lemma {:induction false} MaxRank(rank: map<string, nat>) returns (top: nat)
    ensures forall f :: f in rank ==> rank[f] <= top
    decreases |rank|
  {
    if rank == map[] {
      top := 0;
    } else {
      var f :| f in rank;
      var rest := rank - {f};
      assert rest.Keys == rank.Keys - {f};
      top := MaxRank(rest);
      top := Max(top, rank[f]);
      assert forall g :: g in rank ==> g == f || (g in rest && rest[g] == rank[g]);
    }
  }
}
