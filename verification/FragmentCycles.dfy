/**
 The validator's search for fragments that spread themselves: a depth-first
 walk from every fragment in turn that shares one set of visited fragments,
 into which the fragment a walk starts from is not put.
 */
module FragmentCycles {
  import opened Wrappers
  import opened Query

  /** The names spread anywhere under some selections, at any depth. */
  function SpreadsIn(sels: seq<Selection>): set<string> {
    if sels == [] then {} else SpreadsOf(sels[0]) + SpreadsIn(sels[1..])
  }

  function SpreadsOf(s: Selection): set<string> {
    match s
    case Field(f) => SpreadsIn(f.selections)
    case Inline(_, _, sels) => SpreadsIn(sels)
    case Spread(name, _) => {name}
  }

  predicate Known(fragments: seq<Fragment>, name: string) {
    Lookup(fragments, name).Some?
  }

  function Body(fragments: seq<Fragment>, name: string): seq<Selection>
    requires Known(fragments, name)
  {
    Lookup(fragments, name).value.selections
  }

  /** Fragment `name` spreads the known fragment `to`. */
  ghost predicate Leads(fragments: seq<Fragment>, name: string, to: string) {
    Known(fragments, name) && Known(fragments, to) && to in SpreadsIn(Body(fragments, name))
  }

  /** The fragments named in `path` spread each other in a circle. */
  ghost predicate IsCycle(fragments: seq<Fragment>, path: seq<string>) {
    && path != []
    && (forall k :: 0 <= k < |path| - 1 ==> Leads(fragments, path[k], path[k + 1]))
    && Leads(fragments, path[|path| - 1], path[0])
  }

  ghost predicate Acyclic(fragments: seq<Fragment>) {
    forall path :: !IsCycle(fragments, path)
  }

  ghost predicate UniqueNames(fragments: seq<Fragment>) {
    forall i, j :: 0 <= i < j < |fragments| ==> fragments[i].name != fragments[j].name
  }

  lemma {:induction false} LookupUnique(fragments: seq<Fragment>, i: nat)
    requires UniqueNames(fragments) && i < |fragments|
    ensures Lookup(fragments, fragments[i].name) == Some(fragments[i])
  {
    if i > 0 {
      assert fragments[0].name != fragments[i].name;
      LookupUnique(fragments[1..], i - 1);
    }
  }

  // ----- a ranking of the fragments -----

  /** Every ranked fragment spreads only fragments of lower rank, all of them ranked. */
  ghost predicate Ranking(fragments: seq<Fragment>, rank: map<string, nat>) {
    && (forall f :: f in rank ==> Known(fragments, f))
    && (forall f, g :: f in rank && Leads(fragments, f, g) ==> g in rank && rank[g] < rank[f])
  }

  ghost predicate RanksAll(fragments: seq<Fragment>, rank: map<string, nat>) {
    Ranking(fragments, rank) && forall f :: f in fragments ==> f.name in rank
  }

  lemma {:induction false} RankDescends(fragments: seq<Fragment>, rank: map<string, nat>, path: seq<string>, k: nat)
    requires Ranking(fragments, rank) && IsCycle(fragments, path) && path[0] in rank && k < |path|
    ensures path[k] in rank && rank[path[k]] + k <= rank[path[0]]
  {
    if k > 0 {
      RankDescends(fragments, rank, path, k - 1);
      assert Leads(fragments, path[k - 1], path[k]);
    }
  }

  /** A ranking of all fragments rules out cycles. */
  lemma RankedIsAcyclic(fragments: seq<Fragment>, rank: map<string, nat>)
    requires RanksAll(fragments, rank)
    ensures Acyclic(fragments)
  {
    forall path | IsCycle(fragments, path)
      ensures false
    {
      LookupFinds(fragments, path[0]);
      RankDescends(fragments, rank, path, |path| - 1);
    }
  }

  // ----- the search -----

  /** An error of the validator: a fragment on a type without fields, or the spreads of a cycle. */
  datatype ValidationError = NotComposite(fragment: string) | FragmentCycle(spreads: seq<string>)

  /** Spreads lead from one fragment to another, or they are the same. */
  ghost predicate Reaches(fragments: seq<Fragment>, from': string, to': string) {
    exists chain :: IsChain(fragments, chain) && chain[0] == from' && chain[|chain| - 1] == to'
  }

  ghost predicate IsChain(fragments: seq<Fragment>, chain: seq<string>) {
    chain != [] && forall k :: 0 <= k < |chain| - 1 ==> Leads(fragments, chain[k], chain[k + 1])
  }

  /** Fragment `name` is on a composite type. */
  ghost predicate IsRoot(fragments: seq<Fragment>, composite: string -> bool, name: string) {
    exists f :: f in fragments && f.name == name && composite(f.on)
  }

  /** A circle of spreads that a fragment on a composite type leads to. */
  ghost predicate FoundCycle(fragments: seq<Fragment>, composite: string -> bool, path: seq<string>) {
    IsCycle(fragments, path) && exists root :: IsRoot(fragments, composite, root) && Reaches(fragments, root, path[0])
  }

  ghost predicate Sound(fragments: seq<Fragment>, composite: string -> bool, e: ValidationError) {
    match e
    case FragmentCycle(spreads) => FoundCycle(fragments, composite, spreads)
    case NotComposite(name) => exists f :: f in fragments && f.name == name && !composite(f.on)
  }

  ghost predicate NoCycle(errs: seq<ValidationError>) {
    forall e :: e in errs ==> e.NotComposite?
  }

  /** From a ranked fragment no cycle can be reached. */
  lemma {:induction false} RankedReachesRanked(fragments: seq<Fragment>, rank: map<string, nat>, chain: seq<string>,
                                               k: nat)
    requires Ranking(fragments, rank) && IsChain(fragments, chain) && chain[0] in rank && k < |chain|
    ensures chain[k] in rank
  {
    if k > 0 {
      RankedReachesRanked(fragments, rank, chain, k - 1);
      assert Leads(fragments, chain[k - 1], chain[k - 1 + 1]);
    }
  }

  /** Where all fragments on composite types are ranked, they lead to no cycle. */
  lemma RankedFindNone(fragments: seq<Fragment>, composite: string -> bool, rank: map<string, nat>)
    requires Ranking(fragments, rank) && forall f :: f in fragments && composite(f.on) ==> f.name in rank
    ensures forall path :: !FoundCycle(fragments, composite, path)
  {
    hide Leads, Ranking;
    forall path | FoundCycle(fragments, composite, path)
      ensures false
    {
      var root :| IsRoot(fragments, composite, root) && Reaches(fragments, root, path[0]);
      var chain :| IsChain(fragments, chain) && chain[0] == root && chain[|chain| - 1] == path[0];
      RankedReachesRanked(fragments, rank, chain, |chain| - 1);
      RankDescends(fragments, rank, path, |path| - 1);
      LastLeadsBack(fragments, rank, path);
    }
  }

  lemma LastLeadsBack(fragments: seq<Fragment>, rank: map<string, nat>, path: seq<string>)
    requires Ranking(fragments, rank) && IsCycle(fragments, path) && path[|path| - 1] in rank
    ensures path[0] in rank && rank[path[0]] < rank[path[|path| - 1]]
  {
  }

  class CycleDetector {
    const fragments: seq<Fragment>
    // the types that have fields
    const composite: string -> bool
    var errs: seq<ValidationError>
    var visited: set<string>
    // where in the current path of spreads each fragment on it was entered
    var spreadPathIndex: map<string, nat>
    // fragments whose walk is over, in the order in which it ended
    ghost var rank: map<string, nat>
    ghost var clock: nat

    constructor (fragments: seq<Fragment>, composite: string -> bool)
      ensures this.fragments == fragments && this.composite == composite
      ensures errs == [] && visited == {} && spreadPathIndex == map[]
      ensures rank == map[] && clock == 0
    {
      this.fragments, this.composite := fragments, composite;
      errs, visited, spreadPathIndex, rank, clock := [], {}, map[], map[], 0;
    }

    ghost function Names(): set<string> {
      set f | f in fragments :: f.name
    }

    /** As long as no cycle was reported, whatever was visited and is not on the path is ranked. */
    ghost predicate Consistent()
      reads this
    {
      && visited <= Names()
      && (forall e :: e in errs ==> Sound(fragments, composite, e))
      && (NoCycle(errs) ==>
            && Ranking(fragments, rank)
            && (forall f :: f in rank ==> rank[f] < clock)
            && (forall f :: f in visited && f !in spreadPathIndex ==> f in rank))
    }

    ghost predicate OnlyCyclesAfter(n: nat)
      reads this
    {
      forall k :: n <= k < |errs| ==> errs[k].FragmentCycle?
    }

    /** `path` leads from `root` into the body of the fragment now being walked. */
    ghost predicate OnPath(root: string, path: seq<string>)
      reads this
    {
      && Known(fragments, root) && IsRoot(fragments, composite, root)
      && root in spreadPathIndex && spreadPathIndex[root] == 0
      && (forall k :: 0 <= k < |path| ==> path[k] in spreadPathIndex && spreadPathIndex[path[k]] == k + 1)
      && (forall f :: f in spreadPathIndex ==> f == root || f in path)
      && (path != [] ==> Leads(fragments, root, path[0]))
      && (forall k :: 0 < k < |path| ==> Leads(fragments, path[k - 1], path[k]))
      && Known(fragments, Current(root, path))
    }

    ghost function Current(root: string, path: seq<string>): string {
      if path == [] then root else path[|path| - 1]
    }

    lemma ClosesCycle(root: string, path: seq<string>, name: string)
      requires OnPath(root, path) && name in spreadPathIndex && Leads(fragments, Current(root, path), name)
      ensures spreadPathIndex[name] <= |path|
      ensures FoundCycle(fragments, composite, (path + [name])[spreadPathIndex[name]..])
    {
      hide Leads, IsRoot;
      var i, all := spreadPathIndex[name], path + [name];
      if name != root {
        var k :| 0 <= k < |path| && path[k] == name;
        assert i == k + 1;
      }
      forall j | 0 < j < |all|
        ensures Leads(fragments, all[j - 1], all[j])
      {
        assert j < |path| ==> Leads(fragments, path[j - 1], path[j]);
      }
      assert Leads(fragments, name, all[i]) by {
        assert 0 < i < |path| ==> Leads(fragments, path[i - 1], path[i]);
      }
      CutsCycle(all, i);
      ChainTo(root, all, i);
    }

    lemma CutsCycle(all: seq<string>, i: nat)
      requires i < |all| && Leads(fragments, all[|all| - 1], all[i])
      requires forall j :: 0 < j < |all| ==> Leads(fragments, all[j - 1], all[j])
      ensures IsCycle(fragments, all[i..])
    {
      hide Leads;
      var cycle := all[i..];
      forall k | 0 <= k < |cycle| - 1
        ensures Leads(fragments, cycle[k], cycle[k + 1])
      {
        assert Leads(fragments, all[i + k + 1 - 1], all[i + k + 1]);
      }
    }

    lemma ChainTo(root: string, all: seq<string>, i: nat)
      requires i < |all| && Leads(fragments, root, all[0])
      requires forall j :: 0 < j < |all| ==> Leads(fragments, all[j - 1], all[j])
      ensures Reaches(fragments, root, all[i])
    {
      hide Leads;
      var chain := [root] + all[..i + 1];
      forall k | 0 <= k < |chain| - 1
        ensures Leads(fragments, chain[k], chain[k + 1])
      {
        if k > 0 {
          assert Leads(fragments, all[k - 1], all[k]);
        }
      }
      assert IsChain(fragments, chain);
    }

    method DetectFragmentCycle(sels: seq<Selection>, path: seq<string>, ghost root: string)
      requires Consistent() && OnPath(root, path)
      requires SpreadsIn(sels) <= SpreadsIn(Body(fragments, Current(root, path)))
      modifies this
      ensures Consistent() && spreadPathIndex == old(spreadPathIndex)
      ensures old(visited) <= visited && old(errs) <= errs && OnlyCyclesAfter(|old(errs)|)
      ensures NoCycle(errs) ==>
                && (forall f :: f in old(rank) ==> f in rank && rank[f] == old(rank)[f])
                && (forall g :: g in SpreadsIn(sels) && Known(fragments, g) ==> g in rank)
      decreases Names() - visited, sels, 0
    {
      hide SpreadsOf;
      ghost var walked := {};
      for i := 0 to |sels|
        invariant Consistent() && OnPath(root, path) && spreadPathIndex == old(spreadPathIndex)
        invariant old(visited) <= visited && old(errs) <= errs && OnlyCyclesAfter(|old(errs)|)
        invariant SpreadsIn(sels) == walked + SpreadsIn(sels[i..])
        invariant NoCycle(errs) ==>
                    && (forall f :: f in old(rank) ==> f in rank && rank[f] == old(rank)[f])
                    && (forall g :: g in walked && Known(fragments, g) ==> g in rank)
      {
        assert sels[i..][0] == sels[i] && sels[i..][1..] == sels[i + 1..];
        DetectFragmentCycleSel(sels[i], path, root);
        walked := walked + SpreadsOf(sels[i]);
      }
    }

    method DetectFragmentCycleSel(sel: Selection, path: seq<string>, ghost root: string)
      requires Consistent() && OnPath(root, path)
      requires SpreadsOf(sel) <= SpreadsIn(Body(fragments, Current(root, path)))
      modifies this
      ensures Consistent() && spreadPathIndex == old(spreadPathIndex)
      ensures old(visited) <= visited && old(errs) <= errs && OnlyCyclesAfter(|old(errs)|)
      ensures NoCycle(errs) ==>
                && (forall f :: f in old(rank) ==> f in rank && rank[f] == old(rank)[f])
                && (forall g :: g in SpreadsOf(sel) && Known(fragments, g) ==> g in rank)
      decreases Names() - visited, sel, 2
    {
      match sel
      case Field(f) =>
        DetectFragmentCycle(f.selections, path, root);
      case Inline(_, _, sels) =>
        DetectFragmentCycle(sels, path, root);
      case Spread(name, _) =>
        DetectFragmentSpread(sel, path, root);
    }

    method DetectFragmentSpread(sel: Selection, path: seq<string>, ghost root: string)
      requires Consistent() && OnPath(root, path) && sel.Spread?
      requires sel.name in SpreadsIn(Body(fragments, Current(root, path)))
      modifies this
      ensures Consistent() && spreadPathIndex == old(spreadPathIndex)
      ensures Known(fragments, sel.name) && sel.name in spreadPathIndex ==>
                && spreadPathIndex[sel.name] <= |path| && visited == old(visited)
                && errs == old(errs) + [FragmentCycle((path + [sel.name])[spreadPathIndex[sel.name]..])]
      ensures !Known(fragments, sel.name) || (sel.name in old(visited) && sel.name !in spreadPathIndex) ==>
                errs == old(errs) && visited == old(visited)
      ensures Known(fragments, sel.name) && sel.name !in spreadPathIndex ==> sel.name in visited
      ensures old(visited) <= visited && old(errs) <= errs && OnlyCyclesAfter(|old(errs)|)
      ensures NoCycle(errs) ==>
                && (forall f :: f in old(rank) ==> f in rank && rank[f] == old(rank)[f])
                && (Known(fragments, sel.name) ==> sel.name in rank)
      decreases Names() - visited, sel, 1
    {
      hide SpreadsIn, Ranking, FoundCycle;
      var name := sel.name;
      if Lookup(fragments, name) == None {
        return;
      }
      LookupFinds(fragments, name);
      var spreadPath := path + [name];
      if name in spreadPathIndex {
        ClosesCycle(root, path, name);
        errs := errs + [FragmentCycle(spreadPath[spreadPathIndex[name]..])];
        assert errs[|errs| - 1] in errs;
        return;
      }
      if name in visited {
        return;
      }
      DetectInFragment(sel, path, root);
    }

    /** Walks a fragment that was not visited before, with the fragment on the path. */
    method DetectInFragment(sel: Selection, path: seq<string>, ghost root: string)
      requires Consistent() && OnPath(root, path) && sel.Spread?
      requires sel.name !in visited && sel.name !in spreadPathIndex && sel.name in Names()
      requires Leads(fragments, Current(root, path), sel.name) && Known(fragments, sel.name)
      modifies this
      ensures Consistent() && spreadPathIndex == old(spreadPathIndex)
      ensures sel.name in visited
      ensures old(visited) <= visited && old(errs) <= errs && OnlyCyclesAfter(|old(errs)|)
      ensures NoCycle(errs) ==>
                && (forall f :: f in old(rank) ==> f in rank && rank[f] == old(rank)[f])
                && sel.name in rank
      decreases Names() - visited, sel, 0
    {
      hide SpreadsIn, Lookup, Ranking, Sound, Leads, Known, IsRoot;
      var name, spreadPath := sel.name, path + [sel.name];
      EnterFragment(name, path, root);
      DetectFragmentCycle(Body(fragments, name), spreadPath, root);
      spreadPathIndex := spreadPathIndex - {name};
      Finish(name);
    }

    /** The fragment is visited, and on the path. */
    method EnterFragment(name: string, path: seq<string>, ghost root: string)
      requires Consistent() && OnPath(root, path)
      requires name !in visited && name !in spreadPathIndex && name in Names()
      requires Leads(fragments, Current(root, path), name) && Known(fragments, name)
      modifies this`visited, this`spreadPathIndex
      ensures Consistent() && OnPath(root, path + [name]) && visited == old(visited) + {name}
      ensures spreadPathIndex == old(spreadPathIndex)[name := |path| + 1]
    {
      hide SpreadsIn, Lookup, Ranking, Sound, Leads, Known, IsRoot;
      visited := visited + {name};
      spreadPathIndex := spreadPathIndex[name := |path| + 1];
    }

    /** Records that the walk of a fragment is over. */
    ghost method Finish(name: string)
      requires visited <= Names() && forall e :: e in errs ==> Sound(fragments, composite, e)
      requires NoCycle(errs) ==>
                 && Ranking(fragments, rank) && (forall f :: f in rank ==> rank[f] < clock)
                 && (forall f :: f in visited && f !in spreadPathIndex && f != name ==> f in rank)
                 && Known(fragments, name)
                 && (forall g :: g in SpreadsIn(Body(fragments, name)) && Known(fragments, g) ==> g in rank)
      modifies this`rank, this`clock
      ensures Consistent()
      ensures NoCycle(errs) ==> name in rank && forall f :: f in old(rank) ==> f in rank && rank[f] == old(rank)[f]
    {
      hide SpreadsIn, Lookup;
      if name !in rank {
        rank, clock := rank[name := clock], clock + 1;
      }
    }

    lemma StartsConsistent()
      requires errs == [] && visited == {} && spreadPathIndex == map[] && rank == map[] && clock == 0
      ensures Consistent()
    {
    }

    /** The validator's loop over the fragments of a document: a fragment on another type is reported and not walked. */
    method Validate()
      requires errs == [] && visited == {} && spreadPathIndex == map[] && rank == map[] && clock == 0
      requires UniqueNames(fragments)
      modifies this
      ensures forall e :: e in errs ==> Sound(fragments, composite, e)
      ensures forall f :: f in fragments && !composite(f.on) ==> NotComposite(f.name) in errs
      ensures NoCycle(errs) ==> Ranking(fragments, rank)
      ensures NoCycle(errs) ==> forall f :: f in fragments && composite(f.on) ==> f.name in rank
    {
      hide SpreadsIn, Ranking, Leads, Lookup, FoundCycle;
      assert Consistent() by { StartsConsistent(); }
      for i := 0 to |fragments|
        invariant spreadPathIndex == map[] && Consistent()
        invariant forall j :: 0 <= j < i && !composite(fragments[j].on) ==> NotComposite(fragments[j].name) in errs
        invariant NoCycle(errs) ==>
                    forall j :: 0 <= j < i && composite(fragments[j].on) ==> fragments[j].name in rank
      {
        var frag := fragments[i];
        LookupUnique(fragments, i);
        if !composite(frag.on) {
          errs := errs + [NotComposite(frag.name)];
        } else if frag.name !in visited {
          DetectFrom(frag.name);
        }
      }
    }

    /** The walk of a fragment from which none is on the way. */
    method DetectFrom(name: string)
      requires spreadPathIndex == map[] && Consistent() && Known(fragments, name) && IsRoot(fragments, composite, name)
      modifies this
      ensures spreadPathIndex == map[] && Consistent()
      ensures old(errs) <= errs && OnlyCyclesAfter(|old(errs)|)
      ensures NoCycle(errs) ==> name in rank && forall f :: f in old(rank) ==> f in rank
    {
      hide SpreadsIn, Lookup, Ranking, Sound;
      spreadPathIndex := map[name := 0];
      DetectFragmentCycle(Body(fragments, name), [], name);
      spreadPathIndex := map[];
      Finish(name);
    }
  }

  /** The fragments that are not on composite types are reported, and cycles are found exactly if the others lead to
      one.  Where all are on composite types, nothing is reported exactly if no fragment spreads itself. */
  method DetectCycles(fragments: seq<Fragment>, composite: string -> bool)
    returns (errs: seq<ValidationError>, ghost rank: map<string, nat>)
    requires UniqueNames(fragments)
    ensures forall e :: e in errs && e.FragmentCycle? ==> FoundCycle(fragments, composite, e.spreads)
    ensures (exists e :: e in errs && e.FragmentCycle?) <==> exists path :: FoundCycle(fragments, composite, path)
    ensures forall name :: NotComposite(name) in errs <==>
              exists f :: f in fragments && f.name == name && !composite(f.on)
    ensures errs == [] ==> Acyclic(fragments) && RanksAll(fragments, rank)
    ensures (forall f :: f in fragments ==> composite(f.on)) ==> (errs == [] <==> Acyclic(fragments))
  {
    hide Ranking, IsCycle, Reaches, IsRoot;
    var detector := new CycleDetector(fragments, composite);
    detector.Validate();
    errs, rank := detector.errs, detector.rank;
    if NoCycle(errs) {
      RankedFindNone(fragments, composite, rank);
      if errs == [] {
        RankedIsAcyclic(fragments, rank);
      }
    } else {
      var e :| e in errs && e.FragmentCycle?;
      assert Sound(fragments, composite, e);
    }
    if errs != [] {
      assert Sound(fragments, composite, errs[0]);
    }
  }
}
