/**
 The limit on query depth.  The check stops looking once it has found a field
 that is too deep, and runs before the search for fragment cycles, so it must
 not rely on fragments being free of them.
 */
module MaxDepth {
  import opened Wrappers
  import opened Query

  // ----- paths of fields -----

  /** `f` is among `sels` once fragments are expanded, after at most `n` spreads and without entering a field. */
  ghost predicate ReachesField(fragments: seq<Fragment>, sels: seq<Selection>, f: FieldSelection, n: nat)
    decreases n, sels
  {
    exists s :: s in sels && SelectionReaches(fragments, s, f, n)
  }

  ghost predicate SelectionReaches(fragments: seq<Fragment>, s: Selection, f: FieldSelection, n: nat)
    decreases n, s
  {
    match s
    case Field(g) => g == f
    case Inline(_, _, sels) => ReachesField(fragments, sels, f, n)
    case Spread(name, _) =>
      && n > 0 && Lookup(fragments, name).Some?
      && ReachesField(fragments, Lookup(fragments, name).value.selections, f, n - 1)
  }

  ghost predicate HasField(fragments: seq<Fragment>, sels: seq<Selection>, f: FieldSelection) {
    exists n: nat :: ReachesField(fragments, sels, f, n)
  }

  /** Each field of the path is selected under the one before it. */
  ghost predicate FieldPath(fragments: seq<Fragment>, sels: seq<Selection>, path: seq<FieldSelection>)
    decreases |path|
  {
    path != [] ==> HasField(fragments, sels, path[0]) && FieldPath(fragments, path[0].selections, path[1..])
  }

  ghost predicate DeeperThan(fragments: seq<Fragment>, sels: seq<Selection>, k: nat) {
    exists path :: |path| > k && FieldPath(fragments, sels, path)
  }

  /** What one selection contributes to the fields of its selection set. */
  ghost predicate SelectionHas(fragments: seq<Fragment>, s: Selection, f: FieldSelection) {
    match s
    case Field(g) => g == f
    case Inline(_, _, sels) => HasField(fragments, sels, f)
    case Spread(name, _) =>
      Lookup(fragments, name).Some? && HasField(fragments, Lookup(fragments, name).value.selections, f)
  }

  lemma HasFieldBySelection(fragments: seq<Fragment>, sels: seq<Selection>, f: FieldSelection)
    ensures HasField(fragments, sels, f) <==> exists s :: s in sels && SelectionHas(fragments, s, f)
  {
    if HasField(fragments, sels, f) {
      var n: nat :| ReachesField(fragments, sels, f, n);
      var s :| s in sels && SelectionReaches(fragments, s, f, n);
      match s {
        case Field(_) =>
        case Inline(_, _, sub) => assert ReachesField(fragments, sub, f, n);
        case Spread(name, _) =>
          var m: nat := n - 1;
          assert ReachesField(fragments, Lookup(fragments, name).value.selections, f, m);
      }
      assert SelectionHas(fragments, s, f);
    }
    if s :| s in sels && SelectionHas(fragments, s, f) {
      var n: nat := 0;
      match s {
        case Field(_) =>
          assert SelectionReaches(fragments, s, f, n);
        case Inline(_, _, sub) =>
          n :| ReachesField(fragments, sub, f, n);
          assert SelectionReaches(fragments, s, f, n);
        case Spread(name, _) =>
          var m: nat :| ReachesField(fragments, Lookup(fragments, name).value.selections, f, m);
          n := m + 1;
          assert SelectionReaches(fragments, s, f, n);
      }
      assert ReachesField(fragments, sels, f, n);
    }
  }

  /** A path starts in one of the selections, so a set is too deep exactly if one of its selections is. */
  ghost predicate SelectionDeeper(fragments: seq<Fragment>, s: Selection, k: nat) {
    match s
    case Field(f) => k == 0 || DeeperThan(fragments, f.selections, k - 1)
    case Inline(_, _, sels) => DeeperThan(fragments, sels, k)
    case Spread(name, _) =>
      Lookup(fragments, name).Some? && DeeperThan(fragments, Lookup(fragments, name).value.selections, k)
  }

  lemma DeeperBySelection(fragments: seq<Fragment>, sels: seq<Selection>, k: nat)
    ensures DeeperThan(fragments, sels, k) <==> exists s :: s in sels && SelectionDeeper(fragments, s, k)
  {
    if path :| |path| > k && FieldPath(fragments, sels, path) {
      HasFieldBySelection(fragments, sels, path[0]);
      var s :| s in sels && SelectionHas(fragments, s, path[0]);
      match s {
        case Field(f) => assert k > 0 ==> |path[1..]| > k - 1 && FieldPath(fragments, f.selections, path[1..]);
        case Inline(_, _, sub) => assert FieldPath(fragments, sub, path);
        case Spread(name, _) => assert FieldPath(fragments, Lookup(fragments, name).value.selections, path);
      }
      assert SelectionDeeper(fragments, s, k);
    }
    if s :| s in sels && SelectionDeeper(fragments, s, k) {
      var path: seq<FieldSelection>;
      match s {
        case Field(f) =>
          path := [f];
          if k > 0 {
            var rest :| |rest| > k - 1 && FieldPath(fragments, f.selections, rest);
            path := [f] + rest;
            assert path[1..] == rest;
          }
          assert FieldPath(fragments, f.selections, path[1..]);
        case Inline(_, _, sub) => path :| |path| > k && FieldPath(fragments, sub, path);
        case Spread(name, _) => path :| |path| > k &&
          FieldPath(fragments, Lookup(fragments, name).value.selections, path);
      }
      assert SelectionHas(fragments, s, path[0]);
      HasFieldBySelection(fragments, sels, path[0]);
      assert FieldPath(fragments, sels, path);
    }
  }

  // ----- the check -----

  datatype DepthError = MaxDepthExceeded(field: string, depth: int) | UnknownFragment(name: string)

  /** The walk over a selection set, stopped after `n` nested spreads: None if that was not enough.  `exceeded` says
      whether a field before was too deep; then nothing more is entered. */
  function Walk(fragments: seq<Fragment>, maxDepth: nat, n: nat, sels: seq<Selection>, depth: nat,
                exceeded: bool): Option<bool>
    decreases n, sels
  {
    if sels == [] then Some(exceeded)
    else
      match WalkOne(fragments, maxDepth, n, sels[0], depth, exceeded)
      case Some(now) => Walk(fragments, maxDepth, n, sels[1..], depth, now)
      case None => None
  }

  function WalkOne(fragments: seq<Fragment>, maxDepth: nat, n: nat, s: Selection, depth: nat,
                   exceeded: bool): Option<bool>
    decreases n, s
  {
    match s
    case Field(f) =>
      if exceeded || depth > maxDepth then Some(true)
      else Walk(fragments, maxDepth, n, f.selections, depth + 1, false)
    case Inline(_, _, sels) =>
      if exceeded then Some(true) else Walk(fragments, maxDepth, n, sels, depth, false)
    case Spread(name, _) =>
      if Lookup(fragments, name).None? || exceeded then Some(exceeded)
      else if n == 0 then None
      else Walk(fragments, maxDepth, n - 1, Lookup(fragments, name).value.selections, depth, false)
  }

  /** The walk ends: without a limit nothing is walked, and with one it takes finitely many nested spreads. */
  ghost predicate Ends(fragments: seq<Fragment>, maxDepth: nat, sels: seq<Selection>, depth: nat) {
    maxDepth == 0 || exists n: nat :: Walk(fragments, maxDepth, n, sels, depth, false).Some?
  }

  lemma {:induction false} WalkMonotone(fragments: seq<Fragment>, maxDepth: nat, n: nat, m: nat, sels: seq<Selection>,
                                        depth: nat, exceeded: bool)
    requires n <= m && Walk(fragments, maxDepth, n, sels, depth, exceeded).Some?
    ensures Walk(fragments, maxDepth, m, sels, depth, exceeded) == Walk(fragments, maxDepth, n, sels, depth, exceeded)
    decreases n, sels
  {
    if sels != [] {
      WalkOneMonotone(fragments, maxDepth, n, m, sels[0], depth, exceeded);
      WalkMonotone(fragments, maxDepth, n, m, sels[1..], depth,
                   WalkOne(fragments, maxDepth, n, sels[0], depth, exceeded).value);
    }
  }

  lemma {:induction false} WalkOneMonotone(fragments: seq<Fragment>, maxDepth: nat, n: nat, m: nat, s: Selection,
                                           depth: nat, exceeded: bool)
    requires n <= m && WalkOne(fragments, maxDepth, n, s, depth, exceeded).Some?
    ensures WalkOne(fragments, maxDepth, m, s, depth, exceeded) == WalkOne(fragments, maxDepth, n, s, depth, exceeded)
    decreases n, s
  {
    match s
    case Field(f) =>
      if !exceeded && depth <= maxDepth {
        WalkMonotone(fragments, maxDepth, n, m, f.selections, depth + 1, false);
      }
    case Inline(_, _, sels) =>
      if !exceeded {
        WalkMonotone(fragments, maxDepth, n, m, sels, depth, false);
      }
    case Spread(name, _) =>
      if Lookup(fragments, name).Some? && !exceeded {
        WalkMonotone(fragments, maxDepth, n - 1, m - 1, Lookup(fragments, name).value.selections, depth, false);
      }
  }

  lemma {:induction false} WalkAnswers(fragments: seq<Fragment>, maxDepth: nat, n: nat, sels: seq<Selection>,
                                       depth: nat, exceeded: bool)
    requires 1 <= depth <= maxDepth + 1 && Walk(fragments, maxDepth, n, sels, depth, exceeded).Some?
    ensures Walk(fragments, maxDepth, n, sels, depth, exceeded).value <==>
            exceeded || DeeperThan(fragments, sels, maxDepth + 1 - depth)
    decreases n, sels
  {
    hide DeeperThan, SelectionDeeper;
    var k := maxDepth + 1 - depth;
    if sels != [] {
      var now := WalkOne(fragments, maxDepth, n, sels[0], depth, exceeded).value;
      WalkOneAnswers(fragments, maxDepth, n, sels[0], depth, exceeded);
      WalkAnswers(fragments, maxDepth, n, sels[1..], depth, now);
      DeeperBySelection(fragments, sels[1..], k);
      assert sels == [sels[0]] + sels[1..];
    }
    DeeperBySelection(fragments, sels, k);
  }

  lemma {:induction false} WalkOneAnswers(fragments: seq<Fragment>, maxDepth: nat, n: nat, s: Selection, depth: nat,
                                          exceeded: bool)
    requires 1 <= depth <= maxDepth + 1 && WalkOne(fragments, maxDepth, n, s, depth, exceeded).Some?
    ensures WalkOne(fragments, maxDepth, n, s, depth, exceeded).value <==>
            exceeded || SelectionDeeper(fragments, s, maxDepth + 1 - depth)
    decreases n, s
  {
    hide DeeperThan;
    match s
    case Field(f) =>
      if !exceeded && depth <= maxDepth {
        WalkAnswers(fragments, maxDepth, n, f.selections, depth + 1, false);
      }
    case Inline(_, _, sels) =>
      if !exceeded {
        WalkAnswers(fragments, maxDepth, n, sels, depth, false);
      }
    case Spread(name, _) =>
      if Lookup(fragments, name).Some? && !exceeded {
        WalkAnswers(fragments, maxDepth, n - 1, Lookup(fragments, name).value.selections, depth, false);
      }
  }

  class DepthValidator {
    const fragments: seq<Fragment>
    const maxDepth: nat
    var errs: seq<DepthError>

    constructor (fragments: seq<Fragment>, maxDepth: nat)
      ensures this.fragments == fragments && this.maxDepth == maxDepth && errs == []
    {
      this.fragments, this.maxDepth, errs := fragments, maxDepth, [];
    }

    ghost predicate Reported(from: nat)
      reads this
    {
      exists k :: from <= k < |errs| && errs[k].MaxDepthExceeded?
    }

    /** With a limit, says whether some path of fields under `sels`, the first of them at `depth`, goes
        beyond it, and reports it if so; without a limit it says no. */
    method ValidateMaxDepth(sels: seq<Selection>, depth: nat, ghost n: nat) returns (exceeded: bool)
      requires 1 <= depth && (maxDepth > 0 ==> depth <= maxDepth + 1)
      requires maxDepth == 0 || Walk(fragments, maxDepth, n, sels, depth, false).Some?
      modifies this
      ensures old(errs) <= errs
      ensures maxDepth == 0 ==> !exceeded && errs == old(errs)
      ensures maxDepth > 0 ==> (exceeded <==> DeeperThan(fragments, sels, maxDepth - (depth - 1)))
      ensures maxDepth > 0 ==> Some(exceeded) == Walk(fragments, maxDepth, n, sels, depth, false)
      ensures exceeded <==> Reported(|old(errs)|)
      decreases n, sels
    {
      if maxDepth == 0 {
        return false;
      }
      hide DeeperThan;
      exceeded := false;
      assert sels[0..] == sels;
      for i := 0 to |sels|
        invariant old(errs) <= errs
        invariant Walk(fragments, maxDepth, n, sels[i..], depth, exceeded) ==
                  Walk(fragments, maxDepth, n, sels, depth, false)
        invariant exceeded <==> Reported(|old(errs)|)
      {
        ghost var found, before := exceeded, errs;
        assert sels[i..][0] == sels[i] && sels[i..][1..] == sels[i + 1..];
        exceeded := ValidateSelectionDepth(sels[i], depth, n, exceeded);
        assert Reported(|old(errs)|) <==> found || Reported(|before|) by {
          assert forall j :: 0 <= j < |before| ==> errs[j] == before[j];
        }
      }
      assert sels[|sels|..] == [];
      WalkAnswers(fragments, maxDepth, n, sels, depth, false);
    }

    /** One selection: a field that is too deep is reported, and nothing is entered once one was. */
    method ValidateSelectionDepth(sel: Selection, depth: nat, ghost n: nat, found: bool) returns (exceeded: bool)
      requires 1 <= depth <= maxDepth + 1 && maxDepth > 0
      requires WalkOne(fragments, maxDepth, n, sel, depth, found).Some?
      modifies this
      ensures old(errs) <= errs
      ensures Some(exceeded) == WalkOne(fragments, maxDepth, n, sel, depth, found)
      ensures exceeded <==> found || Reported(|old(errs)|)
      decreases n, sel
    {
      hide DeeperThan, Walk;
      ghost var before := errs;
      exceeded := found;
      match sel {
        case Field(f) =>
          if depth > maxDepth {
            exceeded := true;
            errs := errs + [MaxDepthExceeded(f.name, depth)];
            assert errs[|before|].MaxDepthExceeded?;
          } else if !exceeded {
            exceeded := ValidateMaxDepth(f.selections, depth + 1, n);
          }
        case Inline(_, _, sub) =>
          if !exceeded {
            exceeded := ValidateMaxDepth(sub, depth, n);
          }
        case Spread(name, _) =>
          var frag := Lookup(fragments, name);
          if frag == None {
            errs := errs + [UnknownFragment(name)];
          } else if !exceeded {
            exceeded := ValidateMaxDepth(frag.value.selections, depth, n - 1);
          }
      }
    }
  }

  /** The validator's question about an operation, asked before anything else is checked; the answer is right
      whenever there is one. */
  method ExceedsMaxDepth(fragments: seq<Fragment>, maxDepth: nat, sels: seq<Selection>) returns (exceeded: bool)
    requires Ends(fragments, maxDepth, sels, 1)
    ensures exceeded <==> maxDepth > 0 && DeeperThan(fragments, sels, maxDepth)
  {
    var validator := new DepthValidator(fragments, maxDepth);
    ghost var n: nat := 0;
    if maxDepth > 0 {
      n :| Walk(fragments, maxDepth, n, sels, 1, false).Some?;
    }
    exceeded := validator.ValidateMaxDepth(sels, 1, n);
  }
}
