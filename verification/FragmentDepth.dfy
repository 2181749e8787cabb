/**
 What the search for fragment cycles is for: once it has ranked all fragments,
 and every fragment that is spread is known, expanding the fragments of any
 selection set ends after a bounded number of steps, which is what executing it
 needs to terminate.
 */
module FragmentDepth {
  import opened Query
  import opened FragmentCycles

  /** How deep fields and spreads nest in the text of some selections. */
  function Height(sels: seq<Selection>): nat {
    if sels == [] then 0 else Max(HeightOf(sels[0]), Height(sels[1..]))
  }

  function HeightOf(s: Selection): nat {
    match s
    case Field(f) => 1 + Height(f.selections)
    case Inline(_, _, sels) => Height(sels)
    case Spread(_, _) => 1
  }

  function MaxHeight(fragments: seq<Fragment>): nat {
    if fragments == [] then 0 else Max(Height(fragments[0].selections), MaxHeight(fragments[1..]))
  }

  ghost predicate SpreadsKnown(fragments: seq<Fragment>, sels: seq<Selection>) {
    forall g :: g in SpreadsIn(sels) ==> Known(fragments, g)
  }

  lemma {:induction false} MaxHeightIsMax(fragments: seq<Fragment>, f: Fragment)
    requires f in fragments
    ensures Height(f.selections) <= MaxHeight(fragments)
  {
    if f != fragments[0] {
      MaxHeightIsMax(fragments[1..], f);
    }
  }

  /** Selections nest no deeper than their own text and the fragments they spread. */
  lemma {:induction false} BoundedByText(fragments: seq<Fragment>, sels: seq<Selection>, n: nat)
    requires SpreadsKnown(fragments, sels)
    requires forall g :: g in SpreadsIn(sels) ==> Bounded(fragments, Body(fragments, g), n)
    ensures Bounded(fragments, sels, n + Height(sels))
    decreases sels
  {
    if sels != [] {
      var h := Height(sels);
      BoundedByTextOne(fragments, sels[0], n);
      BoundedByText(fragments, sels[1..], n);
      BoundedMonotone(fragments, sels[1..], n + Height(sels[1..]), n + h);
      BoundedMonotone(fragments, [sels[0]], n + HeightOf(sels[0]), n + h);
      assert sels[0] in [sels[0]];
      forall s | s in sels
        ensures BoundedOne(fragments, s, n + h)
      {
        assert s == sels[0] || s in sels[1..];
      }
    }
  }

  lemma {:induction false} BoundedByTextOne(fragments: seq<Fragment>, s: Selection, n: nat)
    requires forall g :: g in SpreadsOf(s) ==> Known(fragments, g) && Bounded(fragments, Body(fragments, g), n)
    ensures BoundedOne(fragments, s, n + HeightOf(s))
    decreases s
  {
    match s
    case Field(f) =>
      BoundedByText(fragments, f.selections, n);
      assert n + HeightOf(s) - 1 == n + Height(f.selections);
    case Inline(_, _, sels) =>
      BoundedByText(fragments, sels, n);
    case Spread(name, _) =>
      assert name in SpreadsOf(s) && n + HeightOf(s) - 1 == n;
  }

  /** The depth of a fragment of rank `r`, when no fragment's text is higher than `h`. */
  function Depth(r: nat, h: nat): nat {
    if r == 0 then h else Depth(r - 1, h) + h
  }

  lemma {:induction false} DepthGrows(r: nat, s: nat, h: nat)
    requires r <= s
    ensures Depth(r, h) <= Depth(s, h)
  {
    if r < s {
      DepthGrows(r, s - 1, h);
    }
  }

  lemma {:induction false} RankedIsBounded(fragments: seq<Fragment>, rank: map<string, nat>, name: string)
    requires RanksAll(fragments, rank) && name in rank
    requires forall f :: f in fragments ==> SpreadsKnown(fragments, f.selections)
    ensures Bounded(fragments, Body(fragments, name), Depth(rank[name], MaxHeight(fragments)))
    decreases rank[name]
  {
    var body, h, r := Body(fragments, name), MaxHeight(fragments), rank[name];
    LookupFinds(fragments, name);
    MaxHeightIsMax(fragments, Lookup(fragments, name).value);
    var n := if r == 0 then 0 else Depth(r - 1, h);
    forall g | g in SpreadsIn(body)
      ensures Bounded(fragments, Body(fragments, g), n)
    {
      assert Leads(fragments, name, g);
      RankedIsBounded(fragments, rank, g);
      DepthGrows(rank[g], r - 1, h);
      BoundedMonotone(fragments, Body(fragments, g), Depth(rank[g], h), n);
    }
    BoundedByText(fragments, body, n);
    BoundedMonotone(fragments, body, n + Height(body), Depth(r, h));
  }

  /** A document that the validator passes can be executed: its selections have a bound. */
  lemma AcyclicIsBounded(fragments: seq<Fragment>, rank: map<string, nat>, sels: seq<Selection>) returns (n: nat)
    requires RanksAll(fragments, rank)
    requires SpreadsKnown(fragments, sels) && forall f :: f in fragments ==> SpreadsKnown(fragments, f.selections)
    ensures Bounded(fragments, sels, n)
  {
    var h, top := MaxHeight(fragments), 0;
    top := MaxRank(rank);
    forall g | g in SpreadsIn(sels)
      ensures Bounded(fragments, Body(fragments, g), Depth(top, h))
    {
      LookupFinds(fragments, g);
      RankedIsBounded(fragments, rank, g);
      DepthGrows(rank[g], top, h);
      BoundedMonotone(fragments, Body(fragments, g), Depth(rank[g], h), Depth(top, h));
    }
    BoundedByText(fragments, sels, Depth(top, h));
    n := Depth(top, h) + Height(sels);
  }
}
