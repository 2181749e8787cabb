/**
 Mergeable selection sets, told by places: two fields stand at the same place of
 the response if the same keys lead to them.  A selection set can be merged
 exactly if no two fields at the same place clash.
 */
module OverlapPlaces {
  import opened Wrappers
  import Query
  import opened OverlapSpec
  import ResponseTree
  import Responses
  import Spelling

  // ----- fields of a selection set -----

  /** Field `m` belongs to a selection set: it stands in it, or in inline fragments inside each other. */
  ghost predicate InSet(d: Doc, ids: seq<nat>, m: nat) {
    m < |d.nodes| && d.nodes[m].Field? && exists steps :: Inlined(d, ids, m, steps)
  }

  ghost predicate Inlined(d: Doc, ids: seq<nat>, m: nat, steps: seq<nat>) {
    && steps != [] && steps[0] in ids && steps[|steps| - 1] == m
    && forall i :: 0 <= i < |steps| - 1 ==>
         steps[i] < |d.nodes| && d.nodes[steps[i]].Inline? && steps[i + 1] in d.nodes[steps[i]].children
  }

  lemma {:induction false} FlatIsInlined(d: Doc, ids: seq<nat>, n: nat, m: nat) returns (steps: seq<nat>)
    requires d.WellFormed() && n < |d.nodes| && n in ids && m in Flat(d, n)
    ensures Inlined(d, ids, m, steps)
    decreases n
  {
    if d.nodes[n].Field? {
      steps := [n];
    } else {
      var children := d.Children(n);
      var i :| 0 <= i < |children| && m in Flat(d, children[i]);
      var more := FlatIsInlined(d, children, children[i], m);
      steps := [n] + more;
    }
  }

  lemma {:induction false} InlinedIsFlat(d: Doc, ids: seq<nat>, m: nat, steps: seq<nat>)
    requires d.WellFormed() && d.Has(ids) && m < |d.nodes| && d.nodes[m].Field? && Inlined(d, ids, m, steps)
    ensures m in FlatAll(d, ids)
    decreases |steps|
  {
    var n := steps[0];
    var i :| 0 <= i < |ids| && ids[i] == n;
    if |steps| > 1 {
      var children := d.Children(n);
      var rest := steps[1..];
      assert forall k :: 0 <= k < |rest| ==> rest[k] == steps[k + 1];
      InlinedIsFlat(d, children, m, rest);
      var j :| 0 <= j < |children| && m in Flat(d, children[j]);
      assert m in Flat(d, n);
    } else {
      assert m in Flat(d, n);
    }
  }

  lemma InSetIff(d: Doc, ids: seq<nat>, m: nat)
    requires d.WellFormed() && d.Has(ids)
    ensures m in FlatAll(d, ids) <==> InSet(d, ids, m)
  {
    hide Flat, Inlined;
    if m in FlatAll(d, ids) {
      var i :| 0 <= i < |ids| && m in Flat(d, ids[i]);
      var steps := FlatIsInlined(d, ids, ids[i], m);
    }
    if InSet(d, ids, m) {
      var steps :| Inlined(d, ids, m, steps);
      InlinedIsFlat(d, ids, m, steps);
    }
  }

  // ----- places -----

  /** Each field of `xs` belongs to the selection set of the one before, the first to `ids`. */
  ghost predicate Leads(d: Doc, ids: seq<nat>, xs: seq<nat>) {
    && xs != [] && InSet(d, ids, xs[0])
    && forall i :: 0 <= i < |xs| - 1 ==> xs[i] < |d.nodes| && InSet(d, d.Children(xs[i]), xs[i + 1])
  }

  lemma {:induction false} LeadsToFields(d: Doc, ids: seq<nat>, xs: seq<nat>)
    requires Leads(d, ids, xs)
    ensures forall i :: 0 <= i < |xs| ==> xs[i] < |d.nodes| && d.nodes[xs[i]].Field?
  {
    hide Inlined;
    forall i | 0 <= i < |xs|
      ensures xs[i] < |d.nodes| && d.nodes[xs[i]].Field?
    {
      if i > 0 {
        assert InSet(d, d.Children(xs[i - 1]), xs[i - 1 + 1]);
      }
    }
  }

  /** The same keys lead to two fields. */
  ghost predicate SameKeys(d: Doc, ids: seq<nat>, xs: seq<nat>, ys: seq<nat>) {
    && Leads(d, ids, xs) && Leads(d, ids, ys) && |xs| == |ys|
    && forall i :: 0 <= i < |xs| ==>
         xs[i] < |d.nodes| && ys[i] < |d.nodes| && d.nodes[xs[i]].Field? && d.nodes[ys[i]].Field? &&
         d.nodes[xs[i]].alias == d.nodes[ys[i]].alias
  }

  ghost predicate SamePlace(d: Doc, ids: seq<nat>, x: nat, y: nat) {
    exists xs, ys :: SameKeys(d, ids, xs, ys) && xs[|xs| - 1] == x && ys[|ys| - 1] == y
  }

  /** Two fields cannot stand at the same place if their values would look different, or if they are taken from
      objects that may be the same and have other names or other arguments. */
  ghost predicate CannotBoth(d: Doc, x: nat, y: nat)
    requires d.WellFormed() && x < |d.nodes| && y < |d.nodes| && d.nodes[x].Field? && d.nodes[y].Field?
  {
    var a, b, i, j := d.nodes[x], d.nodes[y], d.info[x], d.info[y];
    x != y &&
    (|| (i.typ.Some? && j.typ.Some? && ShapeOf(d.leaves, i.typ.value) != ShapeOf(d.leaves, j.typ.value))
     || ((i.parent.None? || j.parent.None? || i.parent == j.parent) && (a.name != b.name || ArgumentsDiffer(d, a, b))))
  }

  ghost predicate ArgumentsDiffer(d: Doc, a: Node, b: Node)
    requires a.Field? && b.Field?
  {
    exists vars :: (d.blind ==> vars == map[]) &&
                   ValuesByName(d.read, vars, a.args) != ValuesByName(d.read, vars, b.args)
  }

  lemma CannotBothIsClash(d: Doc, x: nat, y: nat)
    requires d.WellFormed() && x < |d.nodes| && y < |d.nodes| && d.nodes[x].Field? && d.nodes[y].Field?
    ensures CannotBoth(d, x, y) <==> x != y && Clash(d, x, y)
  {
    hide ShapeOf, ValuesByName;
  }

  // ----- fields that cannot be merged -----

  lemma {:induction false} ClashBelow(d: Doc, x: nat, y: nat) returns (xs: seq<nat>, ys: seq<nat>)
    requires d.WellFormed() && x < |d.nodes| && y < |d.nodes| && d.nodes[x].Field? && d.nodes[y].Field?
    requires !Mergeable(d, x, y)
    ensures SameKeys(d, [x, y], xs, ys) && xs[0] == x && ys[0] == y
    ensures CannotBoth(d, xs[|xs| - 1], ys[|ys| - 1])
    decreases x + y
  {
    hide FlatAll, Clash, CannotBoth, InSet;
    OfItself(d, [x, y], x);
    OfItself(d, [x, y], y);
    CannotBothIsClash(d, x, y);
    if Clash(d, x, y) {
      xs, ys := [x], [y];
    } else {
      var x', y' :| x' in FlatAll(d, d.Children(x)) && y' in FlatAll(d, d.Children(y)) && !Mergeable(d, x', y');
      BelowIsLess(d, x, x');
      BelowIsLess(d, y, y');
      var us, vs := ClashBelow(d, x', y');
      InSetIff(d, d.Children(x), x');
      InSetIff(d, d.Children(y), y');
      LeadsOn(d, [x, y], x, [x', y'], us);
      LeadsOn(d, [x, y], y, [x', y'], vs);
      xs, ys := [x] + us, [y] + vs;
    }
  }

  lemma OfItself(d: Doc, ids: seq<nat>, x: nat)
    requires x < |d.nodes| && d.nodes[x].Field? && x in ids
    ensures InSet(d, ids, x)
  {
    assert Inlined(d, ids, x, [x]);
  }

  lemma LeadsOn(d: Doc, ids: seq<nat>, x: nat, below: seq<nat>, us: seq<nat>)
    requires x < |d.nodes| && InSet(d, ids, x) && Leads(d, below, us) && InSet(d, d.Children(x), us[0])
    ensures Leads(d, ids, [x] + us)
  {
    hide InSet;
    var xs := [x] + us;
    forall i | 0 <= i < |xs| - 1
      ensures xs[i] < |d.nodes| && InSet(d, d.Children(xs[i]), xs[i + 1])
    {
      if i > 0 {
        assert xs[i] == us[i - 1] && xs[i + 1] == us[i];
      }
    }
  }

  /** The same keys from another set on. */
  lemma FromOtherSet(d: Doc, ids: seq<nat>, others: seq<nat>, xs: seq<nat>, ys: seq<nat>)
    requires SameKeys(d, ids, xs, ys) && InSet(d, others, xs[0]) && InSet(d, others, ys[0])
    ensures SameKeys(d, others, xs, ys)
  {
    hide InSet;
  }

  lemma {:induction false} NotFineBelow(d: Doc, x: nat) returns (xs: seq<nat>, ys: seq<nat>)
    requires d.WellFormed() && x < |d.nodes| && d.nodes[x].Field? && !FineField(d, x)
    ensures SameKeys(d, d.Children(x), xs, ys) && CannotBoth(d, xs[|xs| - 1], ys[|ys| - 1])
    decreases x
  {
    hide FlatAll, Mergeable, CannotBoth, InSet;
    if !AllMerge(d, d.Children(x)) {
      xs, ys := NotMergedIn(d, d.Children(x));
    } else {
      var x' :| x' in FlatAll(d, d.Children(x)) && !FineField(d, x');
      BelowIsLess(d, x, x');
      var us, vs := NotFineBelow(d, x');
      InSetIff(d, d.Children(x), x');
      LeadsOn(d, d.Children(x), x', d.Children(x'), us);
      LeadsOn(d, d.Children(x), x', d.Children(x'), vs);
      xs, ys := [x'] + us, [x'] + vs;
    }
  }

  lemma NotMergedIn(d: Doc, ids: seq<nat>) returns (xs: seq<nat>, ys: seq<nat>)
    requires d.WellFormed() && d.Has(ids) && !AllMerge(d, ids)
    ensures SameKeys(d, ids, xs, ys) && CannotBoth(d, xs[|xs| - 1], ys[|ys| - 1])
  {
    hide FlatAll, Mergeable, CannotBoth, InSet;
    var x, y :| x in FlatAll(d, ids) && y in FlatAll(d, ids) && !Mergeable(d, x, y);
    InSetIff(d, ids, x);
    InSetIff(d, ids, y);
    xs, ys := ClashBelow(d, x, y);
    FromOtherSet(d, [x, y], ids, xs, ys);
  }

  // ----- fields that can be merged -----

  /** Along the same keys fields stay mergeable. */
  lemma {:induction false} MergeableAlong(d: Doc, ids: seq<nat>, xs: seq<nat>, ys: seq<nat>, i: nat)
    requires d.WellFormed() && d.Has(ids) && Fine(d, ids) && SameKeys(d, ids, xs, ys) && i < |xs|
    ensures Mergeable(d, xs[i], ys[i]) && FineField(d, xs[i]) && FineField(d, ys[i])
    decreases i
  {
    hide FlatAll, Clash, InSet;
    if i == 0 {
      InSetIff(d, ids, xs[0]);
      InSetIff(d, ids, ys[0]);
    } else {
      var x, y := xs[i - 1], ys[i - 1];
      MergeableAlong(d, ids, xs, ys, i - 1);
      assert InSet(d, d.Children(x), xs[i - 1 + 1]) && InSet(d, d.Children(y), ys[i - 1 + 1]);
      InSetIff(d, d.Children(x), xs[i]);
      InSetIff(d, d.Children(y), ys[i]);
    }
  }

  lemma FineMeansNoClash(d: Doc, ids: seq<nat>, x: nat, y: nat)
    requires d.WellFormed() && d.Has(ids) && Fine(d, ids) && SamePlace(d, ids, x, y)
    ensures x < |d.nodes| && y < |d.nodes| && d.nodes[x].Field? && d.nodes[y].Field? && !CannotBoth(d, x, y)
  {
    hide FlatAll, Clash, InSet, CannotBoth, Fine, FineField;
    var xs, ys :| SameKeys(d, ids, xs, ys) && xs[|xs| - 1] == x && ys[|ys| - 1] == y;
    MergeableAlong(d, ids, xs, ys, |xs| - 1);
    CannotBothIsClash(d, x, y);
  }

  /** No two fields at the same place clash. */
  ghost predicate NoClash(d: Doc, ids: seq<nat>)
    requires d.WellFormed()
  {
    forall x: nat, y: nat | SamePlace(d, ids, x, y) ::
      x < |d.nodes| && y < |d.nodes| && d.nodes[x].Field? && d.nodes[y].Field? && !CannotBoth(d, x, y)
  }

  /** A selection set, with all below it, can be merged exactly if no two fields at the same place clash. */
  lemma FineIff(d: Doc, ids: seq<nat>)
    requires d.WellFormed() && d.Has(ids)
    ensures Fine(d, ids) <==> NoClash(d, ids)
  {
    hide FlatAll, InSet, CannotBoth, FineField, Mergeable, SamePlace;
    if Fine(d, ids) {
      forall x: nat, y: nat | SamePlace(d, ids, x, y)
        ensures x < |d.nodes| && y < |d.nodes| && d.nodes[x].Field? && d.nodes[y].Field? && !CannotBoth(d, x, y)
      {
        FineMeansNoClash(d, ids, x, y);
      }
    } else {
      var xs, ys := NotFineSomewhere(d, ids);
      assert SamePlace(d, ids, xs[|xs| - 1], ys[|ys| - 1]) by { AreAtSamePlace(d, ids, xs, ys); }
    }
  }

  lemma AreAtSamePlace(d: Doc, ids: seq<nat>, xs: seq<nat>, ys: seq<nat>)
    requires SameKeys(d, ids, xs, ys)
    ensures SamePlace(d, ids, xs[|xs| - 1], ys[|ys| - 1])
  {
  }

  lemma NotFineSomewhere(d: Doc, ids: seq<nat>) returns (xs: seq<nat>, ys: seq<nat>)
    requires d.WellFormed() && d.Has(ids) && !Fine(d, ids)
    ensures SameKeys(d, ids, xs, ys) && CannotBoth(d, xs[|xs| - 1], ys[|ys| - 1])
  {
    hide FlatAll, InSet, CannotBoth, FineField, Mergeable;
    if !AllMerge(d, ids) {
      xs, ys := NotMergedIn(d, ids);
    } else {
      var x :| x in FlatAll(d, ids) && !FineField(d, x);
      InSetIff(d, ids, x);
      var us, vs := NotFineBelow(d, x);
      LeadsOn(d, ids, x, d.Children(x), us);
      LeadsOn(d, ids, x, d.Children(x), vs);
      xs, ys := [x] + us, [x] + vs;
    }
  }

  // ----- types that look alike -----

  function Innermost(t: Query.Type): string {
    match t
    case Named(name) => name
    case ListOf(of) => Innermost(of)
    case NonNullOf(of) => Innermost(of)
  }

  /** The named types inside are the same, or neither is a scalar or an enum. */
  predicate SameLeaf(leaves: set<string>, a: Query.Type, b: Query.Type) {
    Innermost(a) == Innermost(b) || (Innermost(a) !in leaves && Innermost(b) !in leaves)
  }

  ghost predicate AllowAlike(a: Query.Type, b: Query.Type) {
    forall j :: Responses.Allowed(a, j) <==> Responses.Allowed(b, j)
  }

  lemma {:induction false} SameShapeAllows(leaves: set<string>, a: Query.Type, b: Query.Type)
    requires ShapeOf(leaves, a) == ShapeOf(leaves, b)
    ensures SameLeaf(leaves, a, b) && AllowAlike(a, b)
    decreases a
  {
    if !a.Named? {
      SameShapeAllows(leaves, a.of, b.of);
    }
  }

  /** A value that one type allows and the other does not. */
  lemma {:induction false} TellApart(leaves: set<string>, a: Query.Type, b: Query.Type) returns (j: ResponseTree.Json)
    requires ShapeOf(leaves, a) != ShapeOf(leaves, b) && SameLeaf(leaves, a, b)
    requires Spelling.TypeFits(a) && Spelling.TypeFits(b)
    ensures Responses.Allowed(a, j) != Responses.Allowed(b, j)
    ensures !a.NonNullOf? && !b.NonNullOf? ==> j != ResponseTree.JsonNull
    decreases a
  {
    if a.NonNullOf? != b.NonNullOf? {
      j := ResponseTree.JsonNull;
    } else if a.NonNullOf? {
      j := TellApart(leaves, a.of, b.of);
    } else if a.ListOf? && b.ListOf? {
      var inner := TellApart(leaves, a.of, b.of);
      j := ResponseTree.JsonArray([inner]);
      assert j.items[0] == inner;
    } else {
      j := ResponseTree.JsonArray([]);
    }
  }

  /** Types look alike exactly if they allow the same values in a response, as far as lists and nulls go, and have the
      same scalar or enum inside, if any. */
  lemma SameShapeIff(leaves: set<string>, a: Query.Type, b: Query.Type)
    requires Spelling.TypeFits(a) && Spelling.TypeFits(b)
    ensures ShapeOf(leaves, a) == ShapeOf(leaves, b) <==> SameLeaf(leaves, a, b) && AllowAlike(a, b)
  {
    if ShapeOf(leaves, a) == ShapeOf(leaves, b) {
      SameShapeAllows(leaves, a, b);
    } else if SameLeaf(leaves, a, b) {
      var j := TellApart(leaves, a, b);
    }
  }
}
