/**
 The fields a selection set has, told by routes: a route names a selection, and
 if that is a fragment, goes on inside it.
 */
module Flattening {
  import opened Wrappers
  import opened Query
  import opened Ordering
  import opened ExecutionSpec

  /** A fragment on type `on` applies to a parent: as it is if it is of that type, or cast to it. */
  ghost predicate Applies(env: Env, on: string, parent: Value, parentType: Type, p: Value, t: Type) {
    if on == "" || on == TypeString(parentType) then p == parent && t == parentType
    else env.cast(parent, on) == Some(p) && t == Named(on)
  }

  /** The route leads to field `o`, through selections that are not skipped and fragments that apply. */
  ghost predicate Met(env: Env, parent: Value, parentType: Type, sels: seq<Selection>, route: seq<nat>, o: Occurrence)
    decreases |route|
  {
    route != [] && route[0] < |sels| &&
    match sels[route[0]]
    case Field(f) =>
      |route| == 1 && !env.skip(f.directives) && f.schema.Some? && o == Occurrence(f, parent, parentType)
    case Inline(on, directives, inner) =>
      !env.skip(directives) && MetInside(env, on, parent, parentType, inner, route, o)
    case Spread(name, directives) =>
      && !env.skip(directives) && Lookup(env.fragments, name).Some?
      && var f := Lookup(env.fragments, name).value;
         MetInside(env, f.on, parent, parentType, f.selections, route, o)
  }

  ghost predicate MetInside(env: Env, on: string, parent: Value, parentType: Type, inner: seq<Selection>,
                            route: seq<nat>, o: Occurrence)
    requires route != []
    decreases |route|, 0
  {
    exists p, t :: Applies(env, on, parent, parentType, p, t) && Met(env, p, t, inner, route[1..], o)
  }

  /** Exactly the fields met on routes that start in a range of selections, in the order of their routes. */
  ghost predicate Listed(env: Env, parent: Value, parentType: Type, sels: seq<Selection>, from': nat, to': nat,
                         occs: seq<Occurrence>, routes: seq<seq<nat>>) {
    && AllMet(env, parent, parentType, sels, from', to', occs, routes) && Increasing(routes)
    && Complete(env, parent, parentType, sels, from', to', occs, routes)
  }

  ghost predicate AllMet(env: Env, parent: Value, parentType: Type, sels: seq<Selection>, from': nat, to': nat,
                         occs: seq<Occurrence>, routes: seq<seq<nat>>) {
    && |routes| == |occs|
    && forall k :: 0 <= k < |routes| ==>
         From(routes[k], from', to') && Met(env, parent, parentType, sels, routes[k], occs[k])
  }

  predicate Increasing(routes: seq<seq<nat>>) {
    forall i, j :: 0 <= i < j < |routes| ==> LexLess(routes[i], routes[j])
  }

  ghost predicate Complete(env: Env, parent: Value, parentType: Type, sels: seq<Selection>, from': nat, to': nat,
                           occs: seq<Occurrence>, routes: seq<seq<nat>>) {
    forall r, o | Met(env, parent, parentType, sels, r, o) :: From(r, from', to') ==> Has(occs, routes, r, o)
  }

  predicate From(route: seq<nat>, from': nat, to': nat) {
    route != [] && from' <= route[0] < to'
  }

  ghost predicate Has(occs: seq<Occurrence>, routes: seq<seq<nat>>, r: seq<nat>, o: Occurrence) {
    exists k :: 0 <= k < |routes| && k < |occs| && routes[k] == r && occs[k] == o
  }

  lemma NothingListed(env: Env, parent: Value, parentType: Type, sels: seq<Selection>, i: nat)
    ensures Listed(env, parent, parentType, sels, i, i, [], [])
  {
    hide Met;
  }

  /** One range of selections after the other. */
  lemma ListedTogether(env: Env, parent: Value, parentType: Type, sels: seq<Selection>, a: nat, b: nat, c: nat,
                       xs: seq<Occurrence>, ys: seq<Occurrence>, rs: seq<seq<nat>>, qs: seq<seq<nat>>)
    requires a <= b <= c && Listed(env, parent, parentType, sels, a, b, xs, rs)
    requires Listed(env, parent, parentType, sels, b, c, ys, qs)
    ensures Listed(env, parent, parentType, sels, a, c, xs + ys, rs + qs)
  {
    hide Met, Complete, Increasing, LexLess;
    IncreasingTogether(env, parent, parentType, sels, a, b, c, xs, ys, rs, qs);
    CompleteTogether(env, parent, parentType, sels, a, b, c, xs, ys, rs, qs);
  }

  lemma IncreasingTogether(env: Env, parent: Value, parentType: Type, sels: seq<Selection>, a: nat, b: nat, c: nat,
                           xs: seq<Occurrence>, ys: seq<Occurrence>, rs: seq<seq<nat>>, qs: seq<seq<nat>>)
    requires AllMet(env, parent, parentType, sels, a, b, xs, rs) && Increasing(rs)
    requires AllMet(env, parent, parentType, sels, b, c, ys, qs) && Increasing(qs)
    ensures Increasing(rs + qs)
  {
    hide Met;
    forall i, j | 0 <= i < j < |rs + qs|
      ensures LexLess((rs + qs)[i], (rs + qs)[j])
    {
      if i < |rs| <= j {
        StartsBefore(rs[i], qs[j - |rs|], a, b, c);
      }
    }
  }

  lemma StartsBefore(r: seq<nat>, q: seq<nat>, a: nat, b: nat, c: nat)
    requires From(r, a, b) && From(q, b, c)
    ensures LexLess(r, q)
  {
  }

  lemma HasTogether(xs: seq<Occurrence>, ys: seq<Occurrence>, rs: seq<seq<nat>>, qs: seq<seq<nat>>, r: seq<nat>,
                    o: Occurrence)
    requires |xs| == |rs| && |ys| == |qs| && (Has(xs, rs, r, o) || Has(ys, qs, r, o))
    ensures Has(xs + ys, rs + qs, r, o)
  {
    if Has(xs, rs, r, o) {
      var k :| 0 <= k < |rs| && k < |xs| && rs[k] == r && xs[k] == o;
      assert (rs + qs)[k] == r && (xs + ys)[k] == o;
    } else {
      var k :| 0 <= k < |qs| && k < |ys| && qs[k] == r && ys[k] == o;
      assert (rs + qs)[|rs| + k] == r && (xs + ys)[|rs| + k] == o;
    }
  }

  lemma CompleteTogether(env: Env, parent: Value, parentType: Type, sels: seq<Selection>, a: nat, b: nat, c: nat,
                         xs: seq<Occurrence>, ys: seq<Occurrence>, rs: seq<seq<nat>>, qs: seq<seq<nat>>)
    requires |xs| == |rs| && |ys| == |qs|
    requires Complete(env, parent, parentType, sels, a, b, xs, rs)
    requires Complete(env, parent, parentType, sels, b, c, ys, qs)
    ensures Complete(env, parent, parentType, sels, a, c, xs + ys, rs + qs)
  {
    hide Met, Has;
    forall r, o | Met(env, parent, parentType, sels, r, o) && From(r, a, c)
      ensures Has(xs + ys, rs + qs, r, o)
    {
      assert From(r, a, b) || From(r, b, c);
      HasTogether(xs, ys, rs, qs, r, o);
    }
  }

  function Behind(i: nat, routes: seq<seq<nat>>): seq<seq<nat>> {
    seq(|routes|, k requires 0 <= k < |routes| => [i] + routes[k])
  }

  /** Selection `i` is a fragment with `inner` in it. */
  ghost predicate Goes(env: Env, parent: Value, parentType: Type, sels: seq<Selection>, i: nat, on: string,
                       inner: seq<Selection>) {
    forall r: seq<nat>, o | From(r, i, i + 1) ::
      Met(env, parent, parentType, sels, r, o) <==> MetInside(env, on, parent, parentType, inner, r, o)
  }

  /** A fragment that applies has the fields that are met inside it. */
  lemma ListedInside(env: Env, parent: Value, parentType: Type, sels: seq<Selection>, i: nat, on: string,
                     inner: seq<Selection>, p: Value, t: Type, xs: seq<Occurrence>, rs: seq<seq<nat>>)
    requires Applies(env, on, parent, parentType, p, t) && Goes(env, parent, parentType, sels, i, on, inner)
    requires Listed(env, p, t, inner, 0, |inner|, xs, rs)
    ensures Listed(env, parent, parentType, sels, i, i + 1, xs, Behind(i, rs))
  {
    hide Met, Applies, Goes, MetInside, Complete, Increasing;
    var qs := Behind(i, rs);
    forall k | 0 <= k < |qs|
      ensures From(qs[k], i, i + 1) && Met(env, parent, parentType, sels, qs[k], xs[k])
    {
      MetBehind(env, parent, parentType, sels, i, on, inner, p, t, rs[k], xs[k]);
    }
    IncreasingBehind(i, rs);
    CompleteInside(env, parent, parentType, sels, i, on, inner, p, t, xs, rs);
  }

  lemma MetBehind(env: Env, parent: Value, parentType: Type, sels: seq<Selection>, i: nat, on: string,
                  inner: seq<Selection>, p: Value, t: Type, r: seq<nat>, o: Occurrence)
    requires Applies(env, on, parent, parentType, p, t) && Goes(env, parent, parentType, sels, i, on, inner)
    requires Met(env, p, t, inner, r, o)
    ensures Met(env, parent, parentType, sels, [i] + r, o)
  {
    hide Met, Applies;
    assert ([i] + r)[1..] == r;
    assert MetInside(env, on, parent, parentType, inner, [i] + r, o);
  }

  lemma IncreasingBehind(i: nat, rs: seq<seq<nat>>)
    requires Increasing(rs)
    ensures Increasing(Behind(i, rs))
  {
    var qs := Behind(i, rs);
    forall k, j | 0 <= k < j < |qs|
      ensures LexLess(qs[k], qs[j])
    {
      assert qs[k][1..] == rs[k] && qs[j][1..] == rs[j];
    }
  }

  lemma CompleteInside(env: Env, parent: Value, parentType: Type, sels: seq<Selection>, i: nat, on: string,
                       inner: seq<Selection>, p: Value, t: Type, xs: seq<Occurrence>, rs: seq<seq<nat>>)
    requires Applies(env, on, parent, parentType, p, t) && Goes(env, parent, parentType, sels, i, on, inner)
    requires |xs| == |rs| && Complete(env, p, t, inner, 0, |inner|, xs, rs)
    ensures Complete(env, parent, parentType, sels, i, i + 1, xs, Behind(i, rs))
  {
    hide Met, Applies, Has;
    var qs := Behind(i, rs);
    forall r: seq<nat>, o | Met(env, parent, parentType, sels, r, o) && From(r, i, i + 1)
      ensures Has(xs, qs, r, o)
    {
      assert MetInside(env, on, parent, parentType, inner, r, o);
      var p', t' :| Applies(env, on, parent, parentType, p', t') && Met(env, p', t', inner, r[1..], o);
      AppliesOnce(env, on, parent, parentType, p, t, p', t');
      MetWithin(env, p, t, inner, r[1..], o);
      HasBehind(i, xs, rs, r, o);
    }
  }

  lemma AppliesOnce(env: Env, on: string, parent: Value, parentType: Type, p: Value, t: Type, p': Value, t': Type)
    requires Applies(env, on, parent, parentType, p, t) && Applies(env, on, parent, parentType, p', t')
    ensures p == p' && t == t'
  {
  }

  lemma HasBehind(i: nat, xs: seq<Occurrence>, rs: seq<seq<nat>>, r: seq<nat>, o: Occurrence)
    requires r != [] && r[0] == i && Has(xs, rs, r[1..], o)
    ensures Has(xs, Behind(i, rs), r, o)
  {
    var k :| 0 <= k < |rs| && k < |xs| && rs[k] == r[1..] && xs[k] == o;
    assert Behind(i, rs)[k] == r;
  }

  lemma MetWithin(env: Env, parent: Value, parentType: Type, sels: seq<Selection>, route: seq<nat>, o: Occurrence)
    requires Met(env, parent, parentType, sels, route, o)
    ensures From(route, 0, |sels|)
  {
  }

  /** A fragment that does not apply, or is skipped, has none. */
  lemma NoneListed(env: Env, parent: Value, parentType: Type, sels: seq<Selection>, i: nat)
    requires forall r: seq<nat>, o | From(r, i, i + 1) :: !Met(env, parent, parentType, sels, r, o)
    ensures Listed(env, parent, parentType, sels, i, i + 1, [], [])
  {
    hide Met;
  }

  lemma {:induction false} RoutesFrom(env: Env, n: nat, parent: Value, parentType: Type, sels: seq<Selection>, i: nat)
    returns (routes: seq<seq<nat>>)
    requires Bounded(env.fragments, sels, n) && i <= |sels|
    ensures Listed(env, parent, parentType, sels, i, |sels|, Flatten(env, n, parent, parentType, sels[i..]), routes)
    decreases n, sels, |sels| - i, 1
  {
    hide Listed, Flatten, Flattened;
    if i == |sels| {
      assert sels[i..] == [];
      FlattenNothing(env, n, parent, parentType);
      NothingListed(env, parent, parentType, sels, i);
      routes := [];
    } else {
      var first := RoutesOfOne(env, n, parent, parentType, sels, i);
      var more := RoutesFrom(env, n, parent, parentType, sels, i + 1);
      FlattenNext(env, n, parent, parentType, sels, i);
      ListedTogether(env, parent, parentType, sels, i, i + 1, |sels|, Flattened(env, n, parent, parentType, sels[i]),
                     Flatten(env, n, parent, parentType, sels[i + 1..]), first, more);
      routes := first + more;
    }
  }

  lemma {:induction false} RoutesOfOne(env: Env, n: nat, parent: Value, parentType: Type, sels: seq<Selection>, i: nat)
    returns (routes: seq<seq<nat>>)
    requires Bounded(env.fragments, sels, n) && i < |sels|
    ensures Listed(env, parent, parentType, sels, i, i + 1, Flattened(env, n, parent, parentType, sels[i]), routes)
    decreases n, sels, |sels| - i, 0
  {
    hide Flatten, Listed;
    assert BoundedOne(env.fragments, sels[i], n);
    match sels[i]
    case Field(f) =>
      routes := FieldListed(env, n, parent, parentType, sels, i);
    case Inline(on, directives, inner) =>
      if !env.skip(directives) {
        routes := RoutesInside(env, n, parent, parentType, sels, i, on, inner);
      } else {
        NoneListed(env, parent, parentType, sels, i);
        routes := [];
      }
    case Spread(name, directives) =>
      if !env.skip(directives) {
        var f := Lookup(env.fragments, name).value;
        routes := RoutesInside(env, n - 1, parent, parentType, sels, i, f.on, f.selections);
      } else {
        NoneListed(env, parent, parentType, sels, i);
        routes := [];
      }
  }

  lemma FieldListed(env: Env, n: nat, parent: Value, parentType: Type, sels: seq<Selection>, i: nat)
    returns (routes: seq<seq<nat>>)
    requires i < |sels| && sels[i].Field? && BoundedOne(env.fragments, sels[i], n)
    ensures Listed(env, parent, parentType, sels, i, i + 1, Flattened(env, n, parent, parentType, sels[i]), routes)
  {
    var f := sels[i].field;
    routes := if env.skip(f.directives) || f.schema.None? then [] else [[i]];
    var occs := Flattened(env, n, parent, parentType, sels[i]);
    forall r, o | Met(env, parent, parentType, sels, r, o) && From(r, i, i + 1)
      ensures Has(occs, routes, r, o)
    {
      assert r == [i];
      assert routes[0] == r && occs[0] == o;
    }
  }

  lemma {:induction false} RoutesInside(env: Env, m: nat, parent: Value, parentType: Type, sels: seq<Selection>,
                                        i: nat, on: string, inner: seq<Selection>)
    returns (routes: seq<seq<nat>>)
    requires i < |sels| && Bounded(env.fragments, inner, m)
    requires Goes(env, parent, parentType, sels, i, on, inner)
    ensures (var occs := match Target(env, on, parent, parentType)
                         case Some((p, t)) => Flatten(env, m, p, t, inner)
                         case None => [];
             Listed(env, parent, parentType, sels, i, i + 1, occs, routes))
    decreases m, inner, |inner|, 2
  {
    hide Flatten, Listed, Met;
    match Target(env, on, parent, parentType)
    case Some((p, t)) =>
      assert inner[0..] == inner;
      var rs := RoutesFrom(env, m, p, t, inner, 0);
      ListedInside(env, parent, parentType, sels, i, on, inner, p, t, Flatten(env, m, p, t, inner), rs);
      routes := Behind(i, rs);
    case None =>
      NoneListed(env, parent, parentType, sels, i);
      routes := [];
  }

  /** The fields that executing a selection set meets are exactly those that some route leads to, in the order of the
      routes. */
  lemma FlattenIsByRoute(env: Env, n: nat, parent: Value, parentType: Type, sels: seq<Selection>)
    returns (routes: seq<seq<nat>>)
    requires Bounded(env.fragments, sels, n)
    ensures (var occs := Flatten(env, n, parent, parentType, sels);
             && |routes| == |occs|
             && (forall k :: 0 <= k < |routes| ==> Met(env, parent, parentType, sels, routes[k], occs[k]))
             && (forall i, j :: 0 <= i < j < |routes| ==> LexLess(routes[i], routes[j]))
             && (forall r, o :: Met(env, parent, parentType, sels, r, o) ==> Has(occs, routes, r, o)))
  {
    hide Met, Flatten, Has, LexLess;
    assert sels[0..] == sels;
    routes := RoutesFrom(env, n, parent, parentType, sels, 0);
    forall r, o | Met(env, parent, parentType, sels, r, o)
      ensures From(r, 0, |sels|)
    {
      MetWithin(env, parent, parentType, sels, r, o);
    }
  }
}
