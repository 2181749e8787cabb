/**
 When the walk of the depth check ends: exactly if no fragment that can be reached
 spreads itself without a field in between, or a field that is too deep comes first.
 */
module DepthWalk {
  import opened Wrappers
  import opened Query
  import opened FragmentCycles
  import opened MaxDepth

  /** The fragments spread by `sels` without entering a field. */
  function ShallowSpreads(sels: seq<Selection>): set<string> {
    if sels == [] then {}
    else
      (match sels[0]
       case Field(_) => {}
       case Inline(_, _, sub) => ShallowSpreads(sub)
       case Spread(name, _) => {name}) + ShallowSpreads(sels[1..])
  }

  ghost predicate LeadsShallow(fragments: seq<Fragment>, f: string, g: string) {
    Known(fragments, f) && Known(fragments, g) && g in ShallowSpreads(Body(fragments, f))
  }

  /** The fragments named in `path` spread each other in a circle, with no field in between. */
  ghost predicate IsShallowCycle(fragments: seq<Fragment>, path: seq<string>) {
    && path != []
    && (forall k :: 0 <= k < |path| - 1 ==> LeadsShallow(fragments, path[k], path[k + 1]))
    && LeadsShallow(fragments, path[|path| - 1], path[0])
  }

  /** Spreads lead from `sels` to fragment `f`. */
  ghost predicate Reaches(fragments: seq<Fragment>, sels: seq<Selection>, f: string) {
    exists path :: IsSpreadPath(fragments, sels, path) && path[|path| - 1] == f
  }

  ghost predicate IsSpreadPath(fragments: seq<Fragment>, sels: seq<Selection>, path: seq<string>) {
    && path != [] && path[0] in SpreadsIn(sels) && Known(fragments, path[0])
    && forall k :: 0 <= k < |path| - 1 ==> Leads(fragments, path[k], path[k + 1])
  }

  /** Every cycle of fragments that can be reached passes through a field. */
  ghost predicate FieldsBreakCycles(fragments: seq<Fragment>, sels: seq<Selection>) {
    forall path :: IsShallowCycle(fragments, path) ==> !Reaches(fragments, sels, path[0])
  }

  // ----- the fragments there are -----

  function Names(fragments: seq<Fragment>): (r: set<string>)
    ensures forall f :: f in r <==> Known(fragments, f)
  {
    NamesAreKnown(fragments);
    set f | f in fragments :: f.name
  }

  lemma {:induction false} NamesAreKnown(fragments: seq<Fragment>)
    ensures forall name :: Known(fragments, name) <==> exists f :: f in fragments && f.name == name
  {
    forall name
      ensures Known(fragments, name) <==> exists f :: f in fragments && f.name == name
    {
      LookupFinds(fragments, name);
    }
  }

  /** All that `sels` spreads can be reached from `root`. */
  ghost predicate Within(fragments: seq<Fragment>, root: seq<Selection>, sels: seq<Selection>) {
    forall g :: g in SpreadsIn(sels) && Known(fragments, g) ==> Reaches(fragments, root, g)
  }

  lemma RootIsWithin(fragments: seq<Fragment>, root: seq<Selection>)
    ensures Within(fragments, root, root)
  {
    forall g | g in SpreadsIn(root) && Known(fragments, g)
      ensures Reaches(fragments, root, g)
    {
      assert IsSpreadPath(fragments, root, [g]);
    }
  }

  lemma BodyIsWithin(fragments: seq<Fragment>, root: seq<Selection>, f: string)
    requires Known(fragments, f) && Reaches(fragments, root, f)
    ensures Within(fragments, root, Body(fragments, f))
  {
    hide Known, SpreadsIn, Body;
    forall g | g in SpreadsIn(Body(fragments, f)) && Known(fragments, g)
      ensures Reaches(fragments, root, g)
    {
      var path :| IsSpreadPath(fragments, root, path) && path[|path| - 1] == f;
      var longer := path + [g];
      forall k | 0 <= k < |longer| - 1
        ensures Leads(fragments, longer[k], longer[k + 1])
      {
        if k < |path| - 1 {
          assert Leads(fragments, path[k], path[k + 1]);
        }
      }
      assert IsSpreadPath(fragments, root, longer);
    }
  }

  // ----- the walk ends -----

  /** `path` is a chain of spreads with no field in between, without repetition, that has led to `sels`. */
  ghost predicate Chain(fragments: seq<Fragment>, path: seq<string>, sels: seq<Selection>) {
    && (forall k :: 0 <= k < |path| ==> Known(fragments, path[k]))
    && (forall k :: 0 <= k < |path| - 1 ==> LeadsShallow(fragments, path[k], path[k + 1]))
    && (path != [] ==> ShallowSpreads(sels) <= ShallowSpreads(Body(fragments, path[|path| - 1])))
  }

  function SetOf(path: seq<string>): set<string> {
    set f | f in path
  }

  /** Enough nested spreads for what is left. */
  function Fuel(fragments: seq<Fragment>, maxDepth: nat, depth: nat, path: seq<string>): nat {
    Levels(maxDepth, depth) * (|Names(fragments)| + 1) + |Names(fragments) - SetOf(path)|
  }

  function Levels(maxDepth: nat, depth: nat): nat {
    if depth <= maxDepth then maxDepth + 1 - depth else 0
  }

  /** What holds on the way: all spreads lead on from the root, and `path` has led to `sels`. */
  ghost predicate OnWay(fragments: seq<Fragment>, root: seq<Selection>, sels: seq<Selection>, path: seq<string>) {
    && Within(fragments, root, sels) && Chain(fragments, path, sels)
    && forall f :: f in path ==> Reaches(fragments, root, f)
  }

  lemma OnWayToRest(fragments: seq<Fragment>, root: seq<Selection>, sels: seq<Selection>, path: seq<string>)
    requires OnWay(fragments, root, sels, path) && sels != []
    ensures OnWay(fragments, root, sels[1..], path)
  {
    hide Reaches, Known;
    assert SpreadsIn(sels[1..]) <= SpreadsIn(sels) && ShallowSpreads(sels[1..]) <= ShallowSpreads(sels);
  }

  lemma OnWayIntoField(fragments: seq<Fragment>, root: seq<Selection>, sels: seq<Selection>, path: seq<string>)
    requires OnWay(fragments, root, sels, path) && sels != [] && sels[0].Field?
    ensures OnWay(fragments, root, sels[0].field.selections, [])
  {
    hide Reaches, Known;
    assert SpreadsIn(sels[0].field.selections) <= SpreadsIn(sels);
  }

  lemma OnWayIntoInline(fragments: seq<Fragment>, root: seq<Selection>, sels: seq<Selection>, path: seq<string>)
    requires OnWay(fragments, root, sels, path) && sels != [] && sels[0].Inline?
    ensures OnWay(fragments, root, sels[0].selections, path)
  {
    hide Reaches, Known;
    assert SpreadsIn(sels[0].selections) <= SpreadsIn(sels) &&
           ShallowSpreads(sels[0].selections) <= ShallowSpreads(sels);
  }

  lemma SpreadIsShallow(sels: seq<Selection>)
    requires sels != [] && sels[0].Spread?
    ensures sels[0].name in ShallowSpreads(sels)
  {
  }

  lemma OnWayIntoSpread(fragments: seq<Fragment>, root: seq<Selection>, sels: seq<Selection>, path: seq<string>)
    requires FieldsBreakCycles(fragments, root) && OnWay(fragments, root, sels, path)
    requires sels != [] && sels[0].Spread? && Known(fragments, sels[0].name)
    ensures sels[0].name !in path
    ensures OnWay(fragments, root, Body(fragments, sels[0].name), path + [sels[0].name])
  {
    hide Reaches, FieldsBreakCycles, Chain;
    var name := sels[0].name;
    SpreadIsShallow(sels);
    assert name in SpreadsIn(sels);
    assert Reaches(fragments, root, name);
    NotOnPath(fragments, root, path, sels, name);
    BodyIsWithin(fragments, root, name);
    ChainGrows(fragments, path, sels, name);
  }

  lemma {:induction false} WalkEnds(fragments: seq<Fragment>, maxDepth: nat, root: seq<Selection>, sels: seq<Selection>,
                                    depth: nat, exceeded: bool, path: seq<string>)
    requires FieldsBreakCycles(fragments, root) && OnWay(fragments, root, sels, path)
    ensures Walk(fragments, maxDepth, Fuel(fragments, maxDepth, depth, path), sels, depth, exceeded).Some?
    decreases Fuel(fragments, maxDepth, depth, path), sels, 1
  {
    hide FieldsBreakCycles, OnWay, Fuel, WalkOne;
    if sels != [] {
      var n := Fuel(fragments, maxDepth, depth, path);
      OneEnds(fragments, maxDepth, root, sels, depth, exceeded, path);
      OnWayToRest(fragments, root, sels, path);
      WalkEnds(fragments, maxDepth, root, sels[1..], depth,
               WalkOne(fragments, maxDepth, n, sels[0], depth, exceeded).value, path);
    }
  }

  lemma OneEnds(fragments: seq<Fragment>, maxDepth: nat, root: seq<Selection>, sels: seq<Selection>,
                depth: nat, exceeded: bool, path: seq<string>)
    requires FieldsBreakCycles(fragments, root) && OnWay(fragments, root, sels, path) && sels != []
    ensures WalkOne(fragments, maxDepth, Fuel(fragments, maxDepth, depth, path), sels[0], depth, exceeded).Some?
    decreases Fuel(fragments, maxDepth, depth, path), sels, 0
  {
    hide FieldsBreakCycles, OnWay, Fuel, Walk;
    var n := Fuel(fragments, maxDepth, depth, path);
    match sels[0]
    case Field(f) =>
      if !exceeded && depth <= maxDepth {
        FuelForField(fragments, maxDepth, depth, path);
        OnWayIntoField(fragments, root, sels, path);
        WalkEnds(fragments, maxDepth, root, f.selections, depth + 1, false, []);
        WalkMonotone(fragments, maxDepth, Fuel(fragments, maxDepth, depth + 1, []), n, f.selections, depth + 1, false);
      }
    case Inline(_, _, sub) =>
      if !exceeded {
        OnWayIntoInline(fragments, root, sels, path);
        WalkEnds(fragments, maxDepth, root, sub, depth, false, path);
      }
    case Spread(name, _) =>
      if Known(fragments, name) && !exceeded {
        OnWayIntoSpread(fragments, root, sels, path);
        FuelForSpread(fragments, maxDepth, depth, path, name);
        WalkEnds(fragments, maxDepth, root, Body(fragments, name), depth, false, path + [name]);
      }
  }

  lemma NotOnPath(fragments: seq<Fragment>, root: seq<Selection>, path: seq<string>, sels: seq<Selection>, name: string)
    requires FieldsBreakCycles(fragments, root) && Chain(fragments, path, sels)
    requires forall f :: f in path ==> Reaches(fragments, root, f)
    requires name in ShallowSpreads(sels) && Known(fragments, name)
    ensures name !in path
  {
    hide Reaches, FieldsBreakCycles;
    forall k | 0 <= k < |path|
      ensures path[k] != name
    {
      if path[k] == name {
        ClosesCycle(fragments, path, sels, k);
        NoCycleAt(fragments, root, path[k..]);
      }
    }
  }

  lemma NoCycleAt(fragments: seq<Fragment>, root: seq<Selection>, cycle: seq<string>)
    requires FieldsBreakCycles(fragments, root) && IsShallowCycle(fragments, cycle)
    ensures !Reaches(fragments, root, cycle[0])
  {
  }

  lemma ClosesCycle(fragments: seq<Fragment>, path: seq<string>, sels: seq<Selection>, k: nat)
    requires Chain(fragments, path, sels) && k < |path| && path[k] in ShallowSpreads(sels)
    ensures IsShallowCycle(fragments, path[k..]) && path[k..][0] == path[k] && path[k] in path
  {
    hide ShallowSpreads, Known;
    var cycle := path[k..];
    forall j | 0 <= j < |cycle| - 1
      ensures LeadsShallow(fragments, cycle[j], cycle[j + 1])
    {
      var i := k + j;
      assert cycle[j] == path[i] && cycle[j + 1] == path[i + 1];
      assert LeadsShallow(fragments, path[i], path[i + 1]);
    }
    assert cycle[|cycle| - 1] == path[|path| - 1];
  }

  lemma ChainGrows(fragments: seq<Fragment>, path: seq<string>, sels: seq<Selection>, name: string)
    requires Chain(fragments, path, sels) && name in ShallowSpreads(sels) && Known(fragments, name)
    ensures Chain(fragments, path + [name], Body(fragments, name))
  {
    hide ShallowSpreads;
    var longer := path + [name];
    forall k | 0 <= k < |longer| - 1
      ensures LeadsShallow(fragments, longer[k], longer[k + 1])
    {
      if k < |path| - 1 {
        assert LeadsShallow(fragments, path[k], path[k + 1]);
      }
    }
  }

  lemma FuelForSpread(fragments: seq<Fragment>, maxDepth: nat, depth: nat, path: seq<string>, name: string)
    requires Known(fragments, name) && name !in path
    ensures Fuel(fragments, maxDepth, depth, path + [name]) == Fuel(fragments, maxDepth, depth, path) - 1
  {
    assert Names(fragments) - SetOf(path + [name]) == (Names(fragments) - SetOf(path)) - {name};
    assert name in Names(fragments) - SetOf(path);
  }

  lemma FuelForField(fragments: seq<Fragment>, maxDepth: nat, depth: nat, path: seq<string>)
    requires depth <= maxDepth
    ensures Fuel(fragments, maxDepth, depth + 1, []) < Fuel(fragments, maxDepth, depth, path)
  {
    var all := |Names(fragments)|;
    assert Names(fragments) - SetOf([]) == Names(fragments);
    assert (maxDepth + 1 - depth) * (all + 1) == (maxDepth - depth) * (all + 1) + all + 1;
  }

  /** The walk ends without a limit, and where every cycle of fragments that can be reached passes through a field. */
  lemma EndsIfFieldsBreakCycles(fragments: seq<Fragment>, maxDepth: nat, sels: seq<Selection>)
    requires maxDepth == 0 || FieldsBreakCycles(fragments, sels)
    ensures Ends(fragments, maxDepth, sels, 1)
  {
    if maxDepth > 0 {
      RootIsWithin(fragments, sels);
      WalkEnds(fragments, maxDepth, sels, sels, 1, false, []);
    }
  }

  // ----- and only there -----

  /** After a field that is too deep the answer stays the same. */
  lemma {:induction false} StaysExceeded(fragments: seq<Fragment>, maxDepth: nat, n: nat, sels: seq<Selection>,
                                         depth: nat)
    ensures Walk(fragments, maxDepth, n, sels, depth, true) == Some(true)
    decreases |sels|
  {
    if sels != [] {
      assert WalkOne(fragments, maxDepth, n, sels[0], depth, true) == Some(true);
      StaysExceeded(fragments, maxDepth, n, sels[1..], depth);
    }
  }

  /** A walk that says no has walked every fragment spread, and that walk said no. */
  lemma {:induction false} SpreadWalked(fragments: seq<Fragment>, maxDepth: nat, n: nat, sels: seq<Selection>,
                                        depth: nat, g: string) returns (m: nat, d: nat)
    requires Walk(fragments, maxDepth, n, sels, depth, false) == Some(false)
    requires g in SpreadsIn(sels) && Known(fragments, g)
    ensures m < n && Walk(fragments, maxDepth, m, Body(fragments, g), d, false) == Some(false)
    decreases n, sels
  {
    StaysExceeded(fragments, maxDepth, n, sels[1..], depth);
    if g in SpreadsIn(sels[1..]) {
      m, d := SpreadWalked(fragments, maxDepth, n, sels[1..], depth, g);
    } else {
      m, d := SpreadWalkedInOne(fragments, maxDepth, n, sels[0], depth, g);
    }
  }

  lemma {:induction false} SpreadWalkedInOne(fragments: seq<Fragment>, maxDepth: nat, n: nat, s: Selection,
                                             depth: nat, g: string) returns (m: nat, d: nat)
    requires WalkOne(fragments, maxDepth, n, s, depth, false) == Some(false)
    requires g in SpreadsOf(s) && Known(fragments, g)
    ensures m < n && Walk(fragments, maxDepth, m, Body(fragments, g), d, false) == Some(false)
    decreases n, s
  {
    match s {
      case Field(f) => m, d := SpreadWalked(fragments, maxDepth, n, f.selections, depth + 1, g);
      case Inline(_, _, sub) => m, d := SpreadWalked(fragments, maxDepth, n, sub, depth, g);
      case Spread(_, _) => m, d := n - 1, depth;
    }
  }

  lemma {:induction false} ShallowIsSpread(sels: seq<Selection>)
    ensures ShallowSpreads(sels) <= SpreadsIn(sels)
  {
    if sels != [] {
      ShallowIsSpread(sels[1..]);
      match sels[0]
      case Field(_) =>
      case Inline(_, _, sub) => ShallowIsSpread(sub);
      case Spread(_, _) =>
    }
  }

  /** Going round a cycle takes ever fewer spreads, so that no walk gets through. */
  lemma {:induction false} NoWayRound(fragments: seq<Fragment>, maxDepth: nat, n: nat, cycle: seq<string>, k: nat,
                                      depth: nat)
    requires IsShallowCycle(fragments, cycle) && k < |cycle| && Known(fragments, cycle[k])
    ensures Walk(fragments, maxDepth, n, Body(fragments, cycle[k]), depth, false) != Some(false)
    decreases n
  {
    hide Walk, ShallowSpreads, SpreadsIn, Known, Body;
    var body := Body(fragments, cycle[k]);
    if Walk(fragments, maxDepth, n, body, depth, false) == Some(false) {
      var next := if k == |cycle| - 1 then 0 else k + 1;
      assert LeadsShallow(fragments, cycle[k], cycle[next]);
      ShallowIsSpread(body);
      var m, d := SpreadWalked(fragments, maxDepth, n, body, depth, cycle[next]);
      NoWayRound(fragments, maxDepth, m, cycle, next, d);
    }
  }

  /** A walk that says no has walked every fragment that can be reached. */
  lemma {:induction false} ReachedIsWalked(fragments: seq<Fragment>, maxDepth: nat, n: nat, sels: seq<Selection>,
                                           depth: nat, path: seq<string>) returns (m: nat, d: nat)
    requires Walk(fragments, maxDepth, n, sels, depth, false) == Some(false) && IsSpreadPath(fragments, sels, path)
    ensures Known(fragments, path[|path| - 1])
    ensures Walk(fragments, maxDepth, m, Body(fragments, path[|path| - 1]), d, false) == Some(false)
    decreases |path|
  {
    hide Walk, SpreadsIn, Known, Body;
    m, d := SpreadWalked(fragments, maxDepth, n, sels, depth, path[0]);
    if |path| > 1 {
      var rest := path[1..];
      assert Leads(fragments, path[0], path[1]);
      forall k | 0 <= k < |rest| - 1
        ensures Leads(fragments, rest[k], rest[k + 1])
      {
        assert Leads(fragments, path[k + 1], path[k + 2]);
      }
      m, d := ReachedIsWalked(fragments, maxDepth, m, Body(fragments, path[0]), d, rest);
    }
  }

  /** In a document that the check lets pass every cycle of fragments that can be reached passes through a field. */
  lemma PassedBreaksCycles(fragments: seq<Fragment>, maxDepth: nat, n: nat, sels: seq<Selection>, depth: nat)
    requires Walk(fragments, maxDepth, n, sels, depth, false) == Some(false)
    ensures FieldsBreakCycles(fragments, sels)
  {
    hide Walk;
    forall cycle | IsShallowCycle(fragments, cycle)
      ensures !Reaches(fragments, sels, cycle[0])
    {
      if Reaches(fragments, sels, cycle[0]) {
        var path :| IsSpreadPath(fragments, sels, path) && path[|path| - 1] == cycle[0];
        var m, d := ReachedIsWalked(fragments, maxDepth, n, sels, depth, path);
        NoWayRound(fragments, maxDepth, m, cycle, 0, d);
      }
    }
  }

  /** Unless some field is too deep, the walk ends exactly if every cycle of fragments that can be reached passes
      through a field. */
  lemma ShallowEndsIff(fragments: seq<Fragment>, maxDepth: nat, sels: seq<Selection>)
    requires maxDepth > 0 && !DeeperThan(fragments, sels, maxDepth)
    ensures Ends(fragments, maxDepth, sels, 1) <==> FieldsBreakCycles(fragments, sels)
  {
    hide FieldsBreakCycles, DeeperThan, Walk;
    if Ends(fragments, maxDepth, sels, 1) {
      var n: nat :| Walk(fragments, maxDepth, n, sels, 1, false).Some?;
      WalkAnswers(fragments, maxDepth, n, sels, 1, false);
      PassedBreaksCycles(fragments, maxDepth, n, sels, 1);
    }
    if FieldsBreakCycles(fragments, sels) {
      EndsIfFieldsBreakCycles(fragments, maxDepth, sels);
    }
  }

  // ----- a field that is too deep -----

  /** Nothing here is more than `k` fields deep, and no cycle of fragments goes without a field. */
  ghost predicate Harmless(fragments: seq<Fragment>, sels: seq<Selection>, k: nat) {
    FieldsBreakCycles(fragments, sels) && !DeeperThan(fragments, sels, k)
  }

  /** Within `n` nested spreads a path of more than `k` fields is met, and all that is written before it is harmless. */
  ghost predicate DeepFirst(fragments: seq<Fragment>, sels: seq<Selection>, k: nat, n: nat)
    decreases n, sels
  {
    sels != [] &&
    (DeepFirstIn(fragments, sels[0], k, n) ||
     (Harmless(fragments, [sels[0]], k) && DeepFirst(fragments, sels[1..], k, n)))
  }

  ghost predicate DeepFirstIn(fragments: seq<Fragment>, s: Selection, k: nat, n: nat)
    decreases n, s
  {
    match s
    case Field(f) => k == 0 || DeepFirst(fragments, f.selections, k - 1, n)
    case Inline(_, _, sels) => DeepFirst(fragments, sels, k, n)
    case Spread(name, _) => n > 0 && Known(fragments, name) && DeepFirst(fragments, Body(fragments, name), k, n - 1)
  }

  lemma WalkJustOne(fragments: seq<Fragment>, maxDepth: nat, n: nat, s: Selection, depth: nat)
    ensures Walk(fragments, maxDepth, n, [s], depth, false) == WalkOne(fragments, maxDepth, n, s, depth, false)
  {
    assert [s][1..] == [];
  }

  lemma {:induction false} YesMeansDeepFirst(fragments: seq<Fragment>, maxDepth: nat, n: nat, sels: seq<Selection>,
                                             depth: nat)
    requires 1 <= depth <= maxDepth + 1 && Walk(fragments, maxDepth, n, sels, depth, false) == Some(true)
    ensures DeepFirst(fragments, sels, maxDepth + 1 - depth, n)
    decreases n, sels
  {
    hide FieldsBreakCycles, DeeperThan, WalkOne, DeepFirstIn;
    var now := WalkOne(fragments, maxDepth, n, sels[0], depth, false);
    if now == Some(true) {
      YesMeansDeepFirstIn(fragments, maxDepth, n, sels[0], depth);
    } else {
      WalkJustOne(fragments, maxDepth, n, sels[0], depth);
      PassedBreaksCycles(fragments, maxDepth, n, [sels[0]], depth);
      WalkAnswers(fragments, maxDepth, n, [sels[0]], depth, false);
      YesMeansDeepFirst(fragments, maxDepth, n, sels[1..], depth);
    }
  }

  lemma {:induction false} YesMeansDeepFirstIn(fragments: seq<Fragment>, maxDepth: nat, n: nat, s: Selection,
                                               depth: nat)
    requires 1 <= depth <= maxDepth + 1 && WalkOne(fragments, maxDepth, n, s, depth, false) == Some(true)
    ensures DeepFirstIn(fragments, s, maxDepth + 1 - depth, n)
    decreases n, s
  {
    hide Walk, DeepFirst;
    match s
    case Field(f) =>
      if depth <= maxDepth {
        YesMeansDeepFirst(fragments, maxDepth, n, f.selections, depth + 1);
      }
    case Inline(_, _, sels) => YesMeansDeepFirst(fragments, maxDepth, n, sels, depth);
    case Spread(name, _) => YesMeansDeepFirst(fragments, maxDepth, n - 1, Body(fragments, name), depth);
  }

  lemma {:induction false} DeepFirstMeansYes(fragments: seq<Fragment>, maxDepth: nat, n: nat, sels: seq<Selection>,
                                             depth: nat) returns (m: nat)
    requires 1 <= depth <= maxDepth + 1 && DeepFirst(fragments, sels, maxDepth + 1 - depth, n)
    ensures Walk(fragments, maxDepth, m, sels, depth, false) == Some(true)
    decreases n, sels
  {
    hide FieldsBreakCycles, DeeperThan, WalkOne, DeepFirstIn, OnWay;
    if DeepFirstIn(fragments, sels[0], maxDepth + 1 - depth, n) {
      m := DeepFirstInMeansYes(fragments, maxDepth, n, sels[0], depth);
      StaysExceeded(fragments, maxDepth, m, sels[1..], depth);
    } else {
      var later := DeepFirstMeansYes(fragments, maxDepth, n, sels[1..], depth);
      var first := HarmlessIsPassed(fragments, maxDepth, sels[0], depth);
      m := if first < later then later else first;
      WalkOneMonotone(fragments, maxDepth, first, m, sels[0], depth, false);
      WalkMonotone(fragments, maxDepth, later, m, sels[1..], depth, false);
    }
  }

  lemma HarmlessIsPassed(fragments: seq<Fragment>, maxDepth: nat, s: Selection, depth: nat) returns (n: nat)
    requires 1 <= depth <= maxDepth + 1 && Harmless(fragments, [s], maxDepth + 1 - depth)
    ensures WalkOne(fragments, maxDepth, n, s, depth, false) == Some(false)
  {
    hide FieldsBreakCycles, DeeperThan, WalkOne, Walk, Within;
    n := Fuel(fragments, maxDepth, depth, []);
    RootIsWithin(fragments, [s]);
    WalkEnds(fragments, maxDepth, [s], [s], depth, false, []);
    WalkAnswers(fragments, maxDepth, n, [s], depth, false);
    WalkJustOne(fragments, maxDepth, n, s, depth);
  }

  lemma {:induction false} DeepFirstInMeansYes(fragments: seq<Fragment>, maxDepth: nat, n: nat, s: Selection,
                                               depth: nat) returns (m: nat)
    requires 1 <= depth <= maxDepth + 1 && DeepFirstIn(fragments, s, maxDepth + 1 - depth, n)
    ensures WalkOne(fragments, maxDepth, m, s, depth, false) == Some(true)
    decreases n, s
  {
    hide Walk, DeepFirst;
    m := 0;
    match s {
      case Field(f) =>
        if depth <= maxDepth {
          m := DeepFirstMeansYes(fragments, maxDepth, n, f.selections, depth + 1);
        }
      case Inline(_, _, sels) => m := DeepFirstMeansYes(fragments, maxDepth, n, sels, depth);
      case Spread(name, _) =>
        m := DeepFirstMeansYes(fragments, maxDepth, n - 1, Body(fragments, name), depth);
        m := m + 1;
    }
  }

  /** On every document: with a limit the walk ends exactly if every cycle of fragments that can be reached passes
      through a field, or a path that is too deep is met before anything else that could go wrong. */
  lemma EndsIff(fragments: seq<Fragment>, maxDepth: nat, sels: seq<Selection>)
    requires maxDepth > 0
    ensures Ends(fragments, maxDepth, sels, 1) <==>
            FieldsBreakCycles(fragments, sels) || exists n: nat :: DeepFirst(fragments, sels, maxDepth, n)
  {
    hide FieldsBreakCycles, DeepFirst, Walk;
    if Ends(fragments, maxDepth, sels, 1) {
      var n: nat :| Walk(fragments, maxDepth, n, sels, 1, false).Some?;
      if Walk(fragments, maxDepth, n, sels, 1, false).value {
        YesMeansDeepFirst(fragments, maxDepth, n, sels, 1);
      } else {
        PassedBreaksCycles(fragments, maxDepth, n, sels, 1);
      }
    }
    if FieldsBreakCycles(fragments, sels) {
      EndsIfFieldsBreakCycles(fragments, maxDepth, sels);
    } else if n: nat :| DeepFirst(fragments, sels, maxDepth, n) {
      var m := DeepFirstMeansYes(fragments, maxDepth, n, sels, 1);
    }
  }

  // ----- examples -----

  /** A fragment that spreads itself first thing: the walk never ends, whatever the limit. */
  lemma SelfSpreadNeverEnds(maxDepth: nat)
    requires maxDepth > 0
    ensures (var again := Spread("A", []);
             !Ends([Fragment("A", "T", [], [again])], maxDepth, [again], 1))
  {
    var again := Spread("A", []);
    forall n: nat
      ensures Walk([Fragment("A", "T", [], [again])], maxDepth, n, [again], 1, false) == None
    {
      SelfSpreadRunsOut(maxDepth, n);
    }
  }

  lemma {:induction false} SelfSpreadRunsOut(maxDepth: nat, n: nat)
    ensures (var again := Spread("A", []);
             Walk([Fragment("A", "T", [], [again])], maxDepth, n, [again], 1, false) == None)
  {
    if n > 0 {
      SelfSpreadRunsOut(maxDepth, n - 1);
    }
  }

  /** Where a field is too deep a cycle need not matter: if the field comes before the spread, the walk ends. */
  lemma CycleAfterDeepField()
    ensures (var fragments := [Fragment("A", "T", [], [Spread("A", [])])];
             var f := FieldSelection("f", "f", [], [], [], None);
             var sels := [Field(f.(selections := [Field(f)])), Spread("A", [])];
             !FieldsBreakCycles(fragments, sels) && Ends(fragments, 1, sels, 1))
  {
    var fragments := [Fragment("A", "T", [], [Spread("A", [])])];
    var f := FieldSelection("f", "f", [], [], [], None);
    var deep := f.(selections := [Field(f)]);
    var sels := [Field(deep), Spread("A", [])];
    assert sels[1..] == [Spread("A", [])] && "A" in SpreadsIn(sels[1..]);
    assert IsShallowCycle(fragments, ["A"]);
    assert IsSpreadPath(fragments, sels, ["A"]);
    assert Reaches(fragments, sels, ["A"][0]);
    assert [Field(f)][1..] == [];
    assert Walk(fragments, 1, 0, [Field(f)], 2, false) == Some(true);
    assert WalkOne(fragments, 1, 0, Field(deep), 1, false) == Some(true);
    assert WalkOne(fragments, 1, 0, Spread("A", []), 1, true) == Some(true);
    assert Walk(fragments, 1, 0, sels, 1, false) == Some(true);
  }
}
