/**
 The validator's comparison of selections that may end up under one response
 key.  Pairs that were compared once are not compared again.
 */
module Overlap {
  import opened Wrappers
  import opened OverlapSpec
  import opened OverlapPlaces

  /** `locs` ends with the places of the two fields. */
  datatype OverlapError = OverlapError(alias: string, reasons: seq<Reason>, locs: seq<nat>)

  /** The fields in a selection, at any depth. */
  ghost function Below(d: Doc, n: nat): (r: set<nat>)
    requires d.WellFormed() && n < |d.nodes|
    ensures forall m :: m in r ==> m <= n
    ensures d.nodes[n].Field? ==> n in r
    ensures forall i :: 0 <= i < |d.Children(n)| ==> Below(d, d.Children(n)[i]) <= r
    decreases n
  {
    var children := d.Children(n);
    var inside := set i, m | 0 <= i < |children| && m in Below(d, children[i]) :: m;
    if d.nodes[n].Field? then inside + {n} else inside
  }

  /** A reason reported for a pair of selections names two fields, one from each, that have it. */
  ghost predicate ReasonFrom(d: Doc, xs: set<nat>, ys: set<nat>, r: Reason)
    requires d.WellFormed() && AreFields(d, xs) && AreFields(d, ys)
  {
    && r.Subfields?
    && exists x, y :: (x in xs && y in ys && d.nodes[x].alias == r.alias &&
                       (Explains(d, x, y, r.why) || Explains(d, y, x, r.why)))
  }

  /** The fields `x` and `y`, in the order they are written, clash for every reason given. */
  ghost predicate ErrorAbout(d: Doc, x: nat, y: nat, e: OverlapError)
    requires d.WellFormed() && x < |d.nodes| && y < |d.nodes| && d.nodes[x].Field? && d.nodes[y].Field?
  {
    && e.alias == d.nodes[x].alias && e.reasons != []
    && (forall r :: r in e.reasons ==> Explains(d, x, y, r))
    && d.nodes[x].at <= d.nodes[y].at
    && |e.locs| >= 2 && e.locs[|e.locs| - 2..] == [d.nodes[x].at, d.nodes[y].at]
  }

  ghost predicate ErrorFrom(d: Doc, xs: set<nat>, ys: set<nat>, e: OverlapError)
    requires d.WellFormed() && AreFields(d, xs) && AreFields(d, ys)
  {
    exists x, y :: x in xs && y in ys && (ErrorAbout(d, x, y, e) || ErrorAbout(d, y, x, e))
  }

  ghost predicate IsExplained(d: Doc, e: OverlapError)
    requires d.WellFormed()
  {
    exists x: nat, y: nat :: x < |d.nodes| && y < |d.nodes| && d.nodes[x].Field? && d.nodes[y].Field? &&
      ErrorAbout(d, x, y, e)
  }

  /** What a comparison of `xs` with `ys` reports, as reasons to its caller or as errors. */
  ghost predicate Reports(d: Doc, xs: set<nat>, ys: set<nat>, before: Memory, after: Memory, reasons: seq<Reason>)
    requires d.WellFormed() && AreFields(d, xs) && AreFields(d, ys)
  {
    && (forall i :: 0 <= i < |reasons| ==> ReasonFrom(d, xs, ys, reasons[i]))
    && (forall i :: |before.errs| <= i < |after.errs| ==> ErrorFrom(d, xs, ys, after.errs[i]))
  }

  lemma ReportsTwice(d: Doc, xs: set<nat>, ys: set<nat>, xs': set<nat>, ys': set<nat>,
                     a: Memory, b: Memory, c: Memory, reasons: seq<Reason>, more: seq<Reason>)
    requires d.WellFormed() && AreFields(d, xs) && AreFields(d, ys) && AreFields(d, xs') && AreFields(d, ys')
    requires Reports(d, xs, ys, a, b, reasons) && Reports(d, xs', ys', b, c, more) && Extends(b, c)
    ensures Reports(d, xs + xs', ys + ys', a, c, reasons + more)
  {
    hide Explains, ErrorAbout;
    forall i | |a.errs| <= i < |c.errs|
      ensures ErrorFrom(d, xs + xs', ys + ys', c.errs[i])
    {
      if i < |b.errs| {
        assert c.errs[i] == b.errs[i];
      }
    }
  }

  /** Fields that can be merged are not reported. */
  lemma NothingToReport(d: Doc, xs: set<nat>, ys: set<nat>, before: Memory, after: Memory, reasons: seq<Reason>)
    requires d.WellFormed() && AreFields(d, xs) && AreFields(d, ys) && SetsMerge(d, xs, ys)
    requires Reports(d, xs, ys, before, after, reasons) && Extends(before, after)
    ensures reasons == [] && after.errs == before.errs
  {
    hide Mergeable, Explains;
    if reasons != [] {
      assert ReasonFrom(d, xs, ys, reasons[0]);
      var x, y :| x in xs && y in ys && (Explains(d, x, y, reasons[0].why) || Explains(d, y, x, reasons[0].why));
      NotExplained(d, x, y, reasons[0].why);
      assert false;
    }
    if |after.errs| > |before.errs| {
      var e := after.errs[|before.errs|];
      assert ErrorFrom(d, xs, ys, e);
      var x, y :| x in xs && y in ys && (ErrorAbout(d, x, y, e) || ErrorAbout(d, y, x, e));
      assert e.reasons[0] in e.reasons;
      NotExplained(d, x, y, e.reasons[0]);
      assert false;
    }
  }

  lemma NotExplained(d: Doc, x: nat, y: nat, r: Reason)
    requires d.WellFormed() && x < |d.nodes| && y < |d.nodes| && d.nodes[x].Field? && d.nodes[y].Field?
    requires Mergeable(d, x, y)
    ensures !Explains(d, x, y, r) && !Explains(d, y, x, r)
  {
    hide Mergeable, Explains;
    MergeableIsSymmetric(d, x, y);
    if Explains(d, x, y, r) {
      ExplainedDoNotMerge(d, x, y, r);
    }
    if Explains(d, y, x, r) {
      ExplainedDoNotMerge(d, y, x, r);
    }
  }

  // ----- the table of pairs -----

  /** What a comparison reads and writes; `dirty` says that some conflict was found. */
  datatype Memory = Memory(validated: set<(nat, nat)>, errs: seq<OverlapError>, dirty: bool)

  ghost predicate Extends(before: Memory, after: Memory) {
    && before.validated <= after.validated
    && |before.errs| <= |after.errs| && after.errs[..|before.errs|] == before.errs
    && (before.dirty ==> after.dirty)
  }

  /** Pairs seen, up to the size of those still being compared, are free of conflict. */
  ghost predicate Trusted(d: Doc, m: Memory, k: int)
    requires d.WellFormed()
  {
    m.dirty || forall a, b :: (a, b) in m.validated && a + b <= k ==>
      a < |d.nodes| && b < |d.nodes| && NodesMerge(d, a, b)
  }

  /** New pairs are small, and a conflict leaves a reason or an error behind. */
  ghost predicate Progress(d: Doc, k: int, before: Memory, after: Memory, reasons: seq<Reason>)
    requires d.WellFormed()
  {
    && Trusted(d, after, k)
    && (forall a, b :: (a, b) in after.validated && (a, b) !in before.validated ==> a + b <= k)
    && (after.dirty ==> before.dirty || reasons != [] || |after.errs| > |before.errs|)
  }

  lemma ProgressTwice(d: Doc, k: int, k': int, a: Memory, b: Memory, c: Memory, reasons: seq<Reason>, more: seq<Reason>)
    requires d.WellFormed() && k' <= k && Extends(a, b) && Extends(b, c)
    requires Progress(d, k, a, b, reasons) && Progress(d, k', b, c, more)
    ensures Progress(d, k, a, c, reasons + more) && Extends(a, c)
  {
    hide NodesMerge;
    assert c.errs[..|a.errs|] == c.errs[..|b.errs|][..|a.errs|];
  }

  lemma TrustedUpTo(d: Doc, before: Memory, m: Memory, k: int, k': int, reasons: seq<Reason>)
    requires d.WellFormed() && k' <= k && Progress(d, k, before, m, reasons)
    ensures Trusted(d, m, k')
  {
  }

  lemma DirtyIsTrusted(d: Doc, m: Memory, k: int)
    requires d.WellFormed() && m.dirty
    ensures Trusted(d, m, k)
  {
  }

  lemma ErrorsDoNotMatter(d: Doc, m: Memory, k: int, errs: seq<OverlapError>)
    requires d.WellFormed() && Trusted(d, m, k)
    ensures Trusted(d, m.(errs := errs), k)
  {
  }

  lemma NoProgress(d: Doc, k: int, m: Memory, xs: set<nat>, ys: set<nat>)
    requires d.WellFormed() && Trusted(d, m, k) && AreFields(d, xs) && AreFields(d, ys)
    ensures Progress(d, k, m, m, []) && Reports(d, xs, ys, m, m, [])
  {
  }

  /** A pair that is skipped was compared before, or is one selection twice. */
  lemma NothingCompared(d: Doc, a: nat, b: nat, m: Memory)
    requires d.WellFormed() && a < |d.nodes| && b < |d.nodes| && Trusted(d, m, a + b)
    requires (a == b && (m.dirty || FineNode(d, a))) || (a, b) in m.validated
    ensures Progress(d, a + b, m, m, []) && Reports(d, Flat(d, a), Flat(d, b), m, m, [])
    ensures m.dirty || NodesMerge(d, a, b)
  {
  }

  function Marked(m: Memory, a: nat, b: nat): Memory {
    m.(validated := m.validated + {(a, b), (b, a)})
  }

  lemma MarkedIsTrusted(d: Doc, m: Memory, a: nat, b: nat)
    requires d.WellFormed() && Trusted(d, m, a + b)
    ensures Trusted(d, Marked(m, a, b), a + b - 1)
  {
    hide NodesMerge;
  }

  lemma Compared(d: Doc, a: nat, b: nat, before: Memory, after: Memory, reasons: seq<Reason>)
    requires d.WellFormed() && a < |d.nodes| && b < |d.nodes| && Trusted(d, before, a + b)
    requires Extends(Marked(before, a, b), after) && Progress(d, a + b - 1, Marked(before, a, b), after, reasons)
    requires after.dirty || NodesMerge(d, a, b)
    requires Reports(d, Flat(d, a), Flat(d, b), Marked(before, a, b), after, reasons)
    ensures Progress(d, a + b, before, after, reasons) && Extends(before, after)
    ensures Reports(d, Flat(d, a), Flat(d, b), before, after, reasons)
  {
    hide NodesMerge, ReasonFrom, ErrorFrom;
    if !after.dirty {
      NodesMergeIsSymmetric(d, a, b);
    }
  }

  lemma FlatOneMore(d: Doc, ids: seq<nat>, i: nat)
    requires d.WellFormed() && d.Has(ids) && i < |ids|
    ensures FlatAll(d, ids[..i + 1]) == FlatAll(d, ids[..i]) + Flat(d, ids[i])
  {
    forall x
      ensures x in FlatAll(d, ids[..i + 1]) <==> x in FlatAll(d, ids[..i]) + Flat(d, ids[i])
    {
      if x in FlatAll(d, ids[..i]) {
        var j :| 0 <= j < i && x in Flat(d, ids[..i][j]);
        assert ids[..i + 1][j] == ids[j];
      }
      if x in Flat(d, ids[i]) {
        assert ids[..i + 1][i] == ids[i];
      }
    }
  }

  lemma FlatOf(d: Doc, a: nat)
    requires d.WellFormed() && a < |d.nodes|
    ensures d.nodes[a].Field? ==> Flat(d, a) == {a}
    ensures d.nodes[a].Inline? ==> Flat(d, a) == FlatAll(d, d.Children(a))
  {
  }

  lemma FlatOfNone(d: Doc)
    requires d.WellFormed()
    ensures FlatAll(d, []) == {}
  {
  }

  lemma MergeableIff(d: Doc, x: nat, y: nat)
    requires d.WellFormed() && x < |d.nodes| && y < |d.nodes| && d.nodes[x].Field? && d.nodes[y].Field?
    ensures Mergeable(d, x, y) <==>
              (x == y || d.nodes[x].alias != d.nodes[y].alias ||
               (!Clash(d, x, y) && SetsMerge(d, FlatAll(d, d.Children(x)), FlatAll(d, d.Children(y)))))
  {
  }

  lemma ExplainedBelow(d: Doc, x: nat, y: nat, before: Memory, after: Memory, reasons: seq<Reason>)
    requires d.WellFormed() && x < |d.nodes| && y < |d.nodes| && d.nodes[x].Field? && d.nodes[y].Field?
    requires x != y && d.nodes[x].alias == d.nodes[y].alias
    requires Reports(d, FlatAll(d, d.Children(x)), FlatAll(d, d.Children(y)), before, after, reasons)
    ensures forall r :: r in reasons ==> Explains(d, x, y, r)
  {
    hide FlatAll;
  }

  /** The reasons found for two fields, as an error of their own or for the caller. */
  lemma FieldsReported(d: Doc, a: nat, b: nat, x: nat, y: nat, reasons: seq<Reason>, locs: seq<nat>)
    requires d.WellFormed() && x < |d.nodes| && y < |d.nodes| && d.nodes[x].Field? && d.nodes[y].Field?
    requires (x == a && y == b) || (x == b && y == a)
    requires reasons != [] && d.nodes[x].at <= d.nodes[y].at && forall r :: r in reasons ==> Explains(d, x, y, r)
    requires |locs| >= 2 && locs[|locs| - 2..] == [d.nodes[x].at, d.nodes[y].at]
    ensures ErrorFrom(d, {a}, {b}, OverlapError(d.nodes[x].alias, reasons, locs))
    ensures forall i :: 0 <= i < |reasons| ==> ReasonFrom(d, {a}, {b}, Subfields(d.nodes[x].alias, reasons[i]))
  {
    assert ErrorAbout(d, x, y, OverlapError(d.nodes[x].alias, reasons, locs));
    assert Explains(d, x, y, reasons[0]);
    assert a in {a} && b in {b};
  }

  class OverlapValidator {
    const d: Doc
    var fieldMap: map<nat, FieldInfo>
    var validated: set<(nat, nat)>
    var errs: seq<OverlapError>
    /** Some conflict was found. */
    ghost var dirty: bool

    constructor (d: Doc)
      ensures this.d == d.Blind() && fieldMap == map[] && validated == {} && errs == [] && !dirty
    {
      this.d, fieldMap, validated, errs, dirty := d.Blind(), map[], {}, [], false;
    }

    // ----- what holds between calls -----

    ghost function Unseen(): set<(nat, nat)>
      reads this
    {
      (set a: nat, b: nat | a < |d.nodes| && b < |d.nodes| :: (a, b)) - validated
    }

    /** The documents for which the check is exact. */
    ghost predicate Ideal()
      reads this`fieldMap
    {
      d.WellFormed() && d.SpreadFree() && d.UniqueArgs() && d.blind && Agrees()
    }

    /** What was noted about fields is what there is to know about them. */
    ghost predicate Agrees()
      requires d.WellFormed()
      reads this`fieldMap
    {
      forall x :: x in fieldMap ==> x < |d.nodes| && fieldMap[x] == d.info[x]
    }

    ghost predicate Ready(a: nat)
      requires d.WellFormed() && a < |d.nodes|
      reads this
    {
      Below(d, a) <= fieldMap.Keys && (dirty || FineNode(d, a))
    }

    ghost predicate AllReady(ids: seq<nat>, top: int)
      requires d.WellFormed() && d.Has(ids)
      reads this
    {
      forall i :: 0 <= i < |ids| ==> Ready(ids[i]) && ids[i] <= top
    }

    lemma ReadyChildren(a: nat)
      requires d.WellFormed() && a < |d.nodes| && Ready(a)
      ensures AllReady(d.Children(a), a - 1)
      ensures d.nodes[a].Field? ==> a in fieldMap
    {
      hide FineNode;
      forall i | 0 <= i < |d.Children(a)|
        ensures Ready(d.Children(a)[i]) && d.Children(a)[i] <= a - 1
      {
        if !dirty {
          FineChildren(d, a, d.Children(a)[i]);
        }
      }
    }

    ghost function Now(): Memory
      reads this
    {
      Memory(validated, errs, dirty)
    }

    // ----- comparing -----

    function Info(x: nat): FieldInfo
      reads this
    {
      if x in fieldMap then fieldMap[x] else FieldInfo(None, None)
    }

    /** The first conflict of two fields of one alias, leaving what is below them aside. */
    function Differ(a: nat, b: nat): (r: Option<Reason>)
      requires a < |d.nodes| && b < |d.nodes| && d.nodes[a].Field? && d.nodes[b].Field?
      reads this
    {
      var ai, bi := Info(a), Info(b);
      if ai.typ.Some? && bi.typ.Some? && !TypesCompatible(d.leaves, ai.typ.value, bi.typ.value) then Some(Types)
      else if ai.parent.None? || bi.parent.None? || ai.parent == bi.parent then
        if d.nodes[a].name != d.nodes[b].name then Some(Names(d.nodes[a].name, d.nodes[b].name))
        else if ArgumentsConflict(d.read, d.nodes[a].args, d.nodes[b].args) then Some(Arguments)
        else None
      else None
    }

    lemma DifferIffClash(a: nat, b: nat)
      requires Ideal() && a < |d.nodes| && b < |d.nodes| && d.nodes[a].Field? && d.nodes[b].Field?
      requires a in fieldMap && b in fieldMap
      requires a != b && d.nodes[a].alias == d.nodes[b].alias
      ensures Differ(a, b).Some? <==> Clash(d, a, b)
      ensures Differ(a, b).Some? ==> Explains(d, a, b, Differ(a, b).value)
    {
      hide TypesCompatible, ShapeOf, ArgumentsConflict, ValuesByName, SymbolsByName, SameArguments, FlatAll, Flat;
      ConflictMeansDifferent(d.read, d.nodes[a].args, d.nodes[b].args);
      if d.info[a].typ.Some? && d.info[b].typ.Some? {
        CompatibleIffSameShape(d.leaves, d.info[a].typ.value, d.info[b].typ.value);
      }
    }

    /** Without the caller's list of reasons (`top`) a conflict becomes an error of its own. */
    method ValidateOverlap(a: nat, b: nat, top: bool) returns (reasons: seq<Reason>, locs: seq<nat>)
      requires d.WellFormed() && a < |d.nodes| && b < |d.nodes|
      requires Ideal() ==> Ready(a) && Ready(b) && Trusted(d, Now(), a + b)
      modifies this`validated, this`errs, this`dirty
      ensures Extends(old(Now()), Now()) && (top ==> reasons == []) && (!top ==> errs == old(errs))
      ensures Ideal() ==> Progress(d, a + b, old(Now()), Now(), reasons) && (dirty || NodesMerge(d, a, b))
      ensures Ideal() ==> Reports(d, Flat(d, a), Flat(d, b), old(Now()), Now(), reasons)
      decreases Unseen(), 0, 0
    {
      hide Progress, Trusted, Reports, Mergeable, Below, FineNode;
      reasons, locs := [], [];
      if a == b || (a, b) in validated {
        if Ideal() {
          NothingCompared(d, a, b, Now());
        }
        return;
      }
      assert (a, b) in Unseen();
      validated := validated + {(a, b), (b, a)};
      assert (a, b) !in Unseen();
      assert Now() == Marked(old(Now()), a, b);
      if Ideal() {
        MarkedIsTrusted(d, old(Now()), a, b);
        FlatOf(d, a);
        FlatOf(d, b);
      }
      match d.nodes[a] {
        case Field(_, _, _, _, _) =>
          match d.nodes[b] {
            case Field(_, _, _, _, _) =>
              reasons, locs := OverlapFields(a, b, top);
            case Inline(children) =>
              assert children == d.Children(b);
              if Ideal() {
                ReadyChildren(b);
              }
              reasons, locs := OverlapRight(a, children, top, a + b - 1);
            case Spread(name) =>
              var frag := GetFragment(d.fragments, name);
              if frag.Some? {
                reasons, locs := OverlapRight(a, frag.value.selections, top, a + b - 1);
              }
          }
        case Inline(children) =>
          assert children == d.Children(a);
          if Ideal() {
            ReadyChildren(a);
          }
          reasons, locs := OverlapLeft(children, b, top, a + b - 1);
        case Spread(name) =>
          var frag := GetFragment(d.fragments, name);
          if frag.Some? {
            reasons, locs := OverlapLeft(frag.value.selections, b, top, a + b - 1);
          }
      }
      if Ideal() {
        Compared(d, a, b, old(Now()), Now(), reasons);
      }
    }

    /** Two fields: a conflict is reported in the order they are written. */
    method OverlapFields(a: nat, b: nat, top: bool) returns (reasons: seq<Reason>, locs: seq<nat>)
      requires d.WellFormed() && a < |d.nodes| && b < |d.nodes| && d.nodes[a].Field? && d.nodes[b].Field? && a != b
      requires Ideal() ==> Ready(a) && Ready(b) && Trusted(d, Now(), a + b - 1)
      modifies this`validated, this`errs, this`dirty
      ensures Extends(old(Now()), Now()) && (top ==> reasons == []) && (!top ==> errs == old(errs))
      ensures Ideal() ==> Progress(d, a + b - 1, old(Now()), Now(), reasons) && (dirty || NodesMerge(d, a, b))
      ensures Ideal() ==> Reports(d, Flat(d, a), Flat(d, b), old(Now()), Now(), reasons)
      decreases Unseen(), 4, 0
    {
      hide Trusted, Below, FineNode, Mergeable, Explains, Flat;
      reasons, locs := [], [];
      var x, y := a, b;
      if d.nodes[b].at < d.nodes[a].at {
        x, y := b, a;
      }
      var reasons2, locs2 := ValidateFieldOverlap(x, y);
      if Ideal() {
        FlatOf(d, a);
        FlatOf(d, b);
        if !dirty {
          MergeableIsSymmetric(d, x, y);
        }
      }
      if reasons2 != [] {
        locs2 := locs2 + [d.nodes[x].at, d.nodes[y].at];
        if Ideal() {
          FieldsReported(d, a, b, x, y, reasons2, locs2);
          ErrorsDoNotMatter(d, Now(), a + b - 1, errs + [OverlapError(d.nodes[x].alias, reasons2, locs2)]);
        }
        if top {
          errs := errs + [OverlapError(d.nodes[x].alias, reasons2, locs2)];
        } else {
          reasons := Under(d.nodes[x].alias, reasons2);
          locs := locs2;
        }
      }
    }

    method ValidateFieldOverlap(a: nat, b: nat) returns (reasons: seq<Reason>, locs: seq<nat>)
      requires d.WellFormed() && a < |d.nodes| && b < |d.nodes| && d.nodes[a].Field? && d.nodes[b].Field? && a != b
      requires Ideal() ==> Ready(a) && Ready(b) && Trusted(d, Now(), a + b - 1)
      modifies this`validated, this`errs, this`dirty
      ensures Extends(old(Now()), Now()) && errs == old(errs)
      ensures Ideal() ==> Progress(d, a + b - 1, old(Now()), Now(), reasons) && (dirty || Mergeable(d, a, b))
      ensures Ideal() ==> forall r :: r in reasons ==> Explains(d, a, b, r)
      decreases Unseen(), 3, 0
    {
      hide Trusted, Below, FineNode, Mergeable, Explains, Flat;
      reasons, locs := [], [];
      if Ideal() {
        MergeableIff(d, a, b);
      }
      if d.nodes[a].alias != d.nodes[b].alias {
        return;
      }
      var difference := Differ(a, b);
      if Ideal() {
        ReadyChildren(a);
        ReadyChildren(b);
        DifferIffClash(a, b);
      }
      if difference.Some? {
        dirty := true;
        DirtyIsTrusted(d, Now(), a + b - 1);
        return [difference.value], [];
      }
      assert d.Children(a) == d.nodes[a].children && d.Children(b) == d.nodes[b].children;
      reasons, locs := OverlapAll(d.nodes[a].children, d.nodes[b].children, a + b - 1);
      if Ideal() {
        ExplainedBelow(d, a, b, old(Now()), Now(), reasons);
      }
    }

    /** Each of one list against each of another, for a caller that collects the reasons. */
    method OverlapAll(left: seq<nat>, right: seq<nat>, ghost k: int) returns (reasons: seq<Reason>, locs: seq<nat>)
      requires d.WellFormed() && d.Has(left) && d.Has(right)
      requires Ideal() ==> Trusted(d, Now(), k) && forall i, j :: 0 <= i < |left| && 0 <= j < |right| ==>
               left[i] + right[j] <= k
      requires Ideal() ==> AllReady(left, |d.nodes|) && AllReady(right, |d.nodes|)
      modifies this`validated, this`errs, this`dirty
      ensures Extends(old(Now()), Now()) && errs == old(errs)
      ensures Ideal() ==>
                && Progress(d, k, old(Now()), Now(), reasons)
                && (dirty || SetsMerge(d, FlatAll(d, left), FlatAll(d, right)))
      ensures Ideal() ==> Reports(d, FlatAll(d, left), FlatAll(d, right), old(Now()), Now(), reasons)
      decreases Unseen(), 2, 0
    {
      hide Trusted, Progress, Reports, Below, FineNode, Mergeable, Flat, FlatAll;
      reasons, locs := [], [];
      ghost var all := FlatAll(d, right);
      if Ideal() {
        FlatOfNone(d);
        NoProgress(d, k, Now(), {}, all);
      }
      for i := 0 to |left|
        invariant Extends(old(Now()), Now()) && errs == old(errs)
        invariant Ideal() ==> Progress(d, k, old(Now()), Now(), reasons)
        invariant Ideal() ==> dirty || SetsMerge(d, FlatAll(d, left[..i]), all)
        invariant Ideal() ==> Reports(d, FlatAll(d, left[..i]), all, old(Now()), Now(), reasons)
      {
        ghost var middle := Now();
        if Ideal() {
          TrustedUpTo(d, old(Now()), middle, k, k, reasons);
        }
        var more, where := OverlapRight(left[i], right, false, k);
        if Ideal() {
          ProgressTwice(d, k, k, old(Now()), middle, Now(), reasons, more);
          ReportsTwice(d, FlatAll(d, left[..i]), all, Flat(d, left[i]), all, old(Now()), middle, Now(), reasons, more);
          FlatOneMore(d, left, i);
          assert all + all == all;
        }
        reasons, locs := reasons + more, locs + where;
      }
      assert left[..|left|] == left;
    }

    method Under(alias: string, reasons: seq<Reason>) returns (r: seq<Reason>)
      ensures |r| == |reasons| && forall i :: 0 <= i < |r| ==> r[i] == Subfields(alias, reasons[i])
    {
      r := [];
      for i := 0 to |reasons|
        invariant |r| == i && forall j :: 0 <= j < i ==> r[j] == Subfields(alias, reasons[j])
      {
        r := r + [Subfields(alias, reasons[i])];
      }
    }

    /** One selection against each of a list. */
    method OverlapRight(a: nat, sels: seq<nat>, top: bool, ghost k: int) returns (reasons: seq<Reason>, locs: seq<nat>)
      requires d.WellFormed() && a < |d.nodes| && d.Has(sels)
      requires Ideal() ==> Ready(a) && Trusted(d, Now(), k) && AllReady(sels, k - a)
      modifies this`validated, this`errs, this`dirty
      ensures Extends(old(Now()), Now()) && (top ==> reasons == []) && (!top ==> errs == old(errs))
      ensures Ideal() ==>
                Progress(d, k, old(Now()), Now(), reasons) && (dirty || SetsMerge(d, Flat(d, a), FlatAll(d, sels)))
      ensures Ideal() ==> Reports(d, Flat(d, a), FlatAll(d, sels), old(Now()), Now(), reasons)
      decreases Unseen(), 1, 0
    {
      hide Trusted, Progress, Reports, Below, FineNode, Mergeable, Flat, FlatAll;
      reasons, locs := [], [];
      if Ideal() {
        FlatOfNone(d);
        NoProgress(d, k, Now(), Flat(d, a), {});
      }
      for i := 0 to |sels|
        invariant Extends(old(Now()), Now()) && (top ==> reasons == []) && (!top ==> errs == old(errs))
        invariant Ideal() ==> Progress(d, k, old(Now()), Now(), reasons)
        invariant Ideal() ==> dirty || SetsMerge(d, Flat(d, a), FlatAll(d, sels[..i]))
        invariant Ideal() ==> Reports(d, Flat(d, a), FlatAll(d, sels[..i]), old(Now()), Now(), reasons)
      {
        ghost var middle := Now();
        if Ideal() {
          TrustedUpTo(d, old(Now()), middle, k, a + sels[i], reasons);
        }
        var more, where := ValidateOverlap(a, sels[i], top);
        if Ideal() {
          ProgressTwice(d, k, a + sels[i], old(Now()), middle, Now(), reasons, more);
          ReportsTwice(d, Flat(d, a), FlatAll(d, sels[..i]), Flat(d, a), Flat(d, sels[i]), old(Now()), middle, Now(),
                       reasons, more);
          FlatOneMore(d, sels, i);
          assert Flat(d, a) + Flat(d, a) == Flat(d, a);
        }
        reasons, locs := reasons + more, locs + where;
      }
      assert sels[..|sels|] == sels;
    }

    /** Each of a list against one selection. */
    method OverlapLeft(sels: seq<nat>, b: nat, top: bool, ghost k: int) returns (reasons: seq<Reason>, locs: seq<nat>)
      requires d.WellFormed() && b < |d.nodes| && d.Has(sels)
      requires Ideal() ==> Ready(b) && Trusted(d, Now(), k) && AllReady(sels, k - b)
      modifies this`validated, this`errs, this`dirty
      ensures Extends(old(Now()), Now()) && (top ==> reasons == []) && (!top ==> errs == old(errs))
      ensures Ideal() ==>
                Progress(d, k, old(Now()), Now(), reasons) && (dirty || SetsMerge(d, FlatAll(d, sels), Flat(d, b)))
      ensures Ideal() ==> Reports(d, FlatAll(d, sels), Flat(d, b), old(Now()), Now(), reasons)
      decreases Unseen(), 1, 0
    {
      hide Trusted, Progress, Reports, Below, FineNode, Mergeable, Flat, FlatAll;
      reasons, locs := [], [];
      if Ideal() {
        FlatOfNone(d);
        NoProgress(d, k, Now(), {}, Flat(d, b));
      }
      for i := 0 to |sels|
        invariant Extends(old(Now()), Now()) && (top ==> reasons == []) && (!top ==> errs == old(errs))
        invariant Ideal() ==> Progress(d, k, old(Now()), Now(), reasons)
        invariant Ideal() ==> dirty || SetsMerge(d, FlatAll(d, sels[..i]), Flat(d, b))
        invariant Ideal() ==> Reports(d, FlatAll(d, sels[..i]), Flat(d, b), old(Now()), Now(), reasons)
      {
        ghost var middle := Now();
        if Ideal() {
          TrustedUpTo(d, old(Now()), middle, k, sels[i] + b, reasons);
        }
        var more, where := ValidateOverlap(sels[i], b, top);
        if Ideal() {
          ProgressTwice(d, k, sels[i] + b, old(Now()), middle, Now(), reasons, more);
          ReportsTwice(d, FlatAll(d, sels[..i]), Flat(d, b), Flat(d, sels[i]), Flat(d, b), old(Now()), middle, Now(),
                       reasons, more);
          FlatOneMore(d, sels, i);
          assert Flat(d, b) + Flat(d, b) == Flat(d, b);
        }
        reasons, locs := reasons + more, locs + where;
      }
      assert sels[..|sels|] == sels;
    }

    // ----- the walk over a document -----

    /** Between comparisons: a conflict found has become an error, and every error is backed by two fields. */
    ghost predicate Settled()
      requires d.WellFormed()
      reads this
    {
      && Trusted(d, Now(), 2 * |d.nodes|)
      && (dirty ==> errs != [])
      && forall i :: 0 <= i < |errs| ==> IsExplained(d, errs[i])
    }

    ghost predicate Filled(ids: seq<nat>)
      requires d.WellFormed() && d.Has(ids)
      reads this`fieldMap
    {
      forall i :: 0 <= i < |ids| ==> Below(d, ids[i]) <= fieldMap.Keys
    }

    method ValidateSelection(s: nat)
      requires d.WellFormed() && s < |d.nodes| && Agrees() && (Ideal() ==> Settled())
      modifies this
      ensures Agrees() && Extends(old(Now()), Now()) && old(fieldMap).Keys <= fieldMap.Keys
      ensures old(Ideal()) ==> Ideal() && Settled() && Ready(s)
      ensures old(Ideal()) && FineNode(d, s) ==> errs == old(errs)
      decreases s, 1
    {
      hide Trusted, Flat, FlatAll, Mergeable, Below, Fine, FineNode;
      assert forall i :: 0 <= i < |d.Children(s)| ==> d.Children(s)[i] < s;
      if FineNode(d, s) {
        FineNodeToChildren(d, s);
      }
      match d.nodes[s] {
        case Field(_, _, _, children, _) =>
          fieldMap := fieldMap[s := d.info[s]];
          assert children == d.Children(s);
          ValidateSelectionSet(children, s);
        case Inline(children) =>
          assert children == d.Children(s);
          ValidateSelectionSet(children, s);
        case Spread(_) =>
      }
      if Ideal() {
        BelowFromChildren(s);
        if !dirty {
          FineNodeFromChildren(d, s);
        }
      }
    }

    lemma BelowFromChildren(s: nat)
      requires d.WellFormed() && s < |d.nodes| && Filled(d.Children(s)) && (d.nodes[s].Field? ==> s in fieldMap)
      ensures Below(d, s) <= fieldMap.Keys
    {
    }

    method ValidateSelectionSet(ids: seq<nat>, ghost bound: nat)
      requires d.WellFormed() && bound <= |d.nodes| && (forall i :: 0 <= i < |ids| ==> ids[i] < bound)
      requires Agrees() && (Ideal() ==> Settled())
      modifies this
      ensures Agrees() && Extends(old(Now()), Now()) && old(fieldMap).Keys <= fieldMap.Keys
      ensures old(Ideal()) ==> Ideal() && Settled() && Filled(ids) && (dirty || Fine(d, ids))
      ensures old(Ideal()) && Fine(d, ids) ==> errs == old(errs)
      decreases bound, 0
    {
      hide Trusted, Flat, FlatAll, Mergeable, Below, Fine, FineNode, NodesMerge;
      for i := 0 to |ids|
        invariant Agrees() && Extends(old(Now()), Now()) && old(fieldMap).Keys <= fieldMap.Keys
        invariant old(Ideal()) ==> Ideal() && Settled() && forall i' :: 0 <= i' < i ==> Ready(ids[i'])
        invariant old(Ideal()) && Fine(d, ids) ==> errs == old(errs)
      {
        if Fine(d, ids) {
          FineMeansNodes(d, ids, i);
        }
        ghost var middle := Now();
        ValidateSelection(ids[i]);
        ExtendsTwice(old(Now()), middle, Now());
      }
      ghost var middle := Now();
      ComparePairs(ids);
      ExtendsTwice(old(Now()), middle, Now());
      if Ideal() && !dirty {
        FineFromNodes(d, ids);
      }
    }

    /** Every two selections of a set. */
    method ComparePairs(ids: seq<nat>)
      requires d.WellFormed() && d.Has(ids)
      requires Ideal() ==> Settled() && forall i :: 0 <= i < |ids| ==> Ready(ids[i])
      modifies this`validated, this`errs, this`dirty
      ensures Extends(old(Now()), Now())
      ensures Ideal() ==> Settled() && (dirty || forall i, j :: 0 <= i < j < |ids| ==> NodesMerge(d, ids[i], ids[j]))
      ensures Ideal() && Fine(d, ids) ==> errs == old(errs)
    {
      hide Trusted, Flat, FlatAll, Mergeable, Below, Fine, FineNode, NodesMerge, Reports;
      for i := 0 to |ids|
        invariant Extends(old(Now()), Now())
        invariant Ideal() ==> Settled() && forall i' :: 0 <= i' < |ids| ==> Ready(ids[i'])
        invariant Ideal() ==> dirty || forall i', j' :: 0 <= i' < j' < |ids| && i' < i ==>
                  NodesMerge(d, ids[i'], ids[j'])
        invariant Ideal() && Fine(d, ids) ==> errs == old(errs)
      {
        for j := i + 1 to |ids|
          invariant Extends(old(Now()), Now())
          invariant Ideal() ==> Settled() && forall i' :: 0 <= i' < |ids| ==> Ready(ids[i'])
          invariant Ideal() ==> dirty || forall i', j' :: 0 <= i' < j' < |ids| && (i' < i || (i' == i && j' < j)) ==>
                    NodesMerge(d, ids[i'], ids[j'])
          invariant Ideal() && Fine(d, ids) ==> errs == old(errs)
        {
          ComparePair(ids[i], ids[j]);
          if Fine(d, ids) {
            FineMeansNodes(d, ids, i);
          }
        }
      }
    }

    method ComparePair(a: nat, b: nat)
      requires d.WellFormed() && a < |d.nodes| && b < |d.nodes|
      requires Ideal() ==> Settled() && Ready(a) && Ready(b)
      modifies this`validated, this`errs, this`dirty
      ensures Extends(old(Now()), Now())
      ensures Ideal() ==> Settled() && (dirty || NodesMerge(d, a, b))
      ensures Ideal() && NodesMerge(d, a, b) ==> errs == old(errs)
    {
      hide Trusted, Flat, FlatAll, Mergeable, Below, FineNode, Reports;
      ghost var before, k := Now(), 2 * |d.nodes|;
      if Ideal() {
        NoProgress(d, k, before, {}, {});
        TrustedUpTo(d, before, before, k, a + b, []);
      }
      var reasons, locs := ValidateOverlap(a, b, true);
      if Ideal() {
        ProgressTwice(d, k, a + b, before, before, Now(), [], reasons);
        TrustedUpTo(d, before, Now(), k, k, [] + reasons);
        NewErrorsAreExplained(d, Flat(d, a), Flat(d, b), before, Now(), reasons);
        if NodesMerge(d, a, b) {
          NothingToReport(d, Flat(d, a), Flat(d, b), before, Now(), reasons);
        }
      }
    }

    /** The check of a whole document, given the selection sets of its operations and fragments.  It ends on
        every document.  Without named spreads it reports an error exactly if some selection set has fields that
        cannot be merged as long as variables are null, that is two fields at the same place that clash, and each
        error names two fields that clash.  With all values of the variables the fields can be merged exactly if no
        error is reported and no pair is hidden. */
    method Validate(roots: seq<seq<nat>>)
      requires d.WellFormed() && d.blind && (forall r :: 0 <= r < |roots| ==> d.Has(roots[r]))
      requires fieldMap == map[] && validated == {} && errs == [] && !dirty
      modifies this
      ensures d.SpreadFree() && d.UniqueArgs() ==>
                (errs == [] <==> forall r :: 0 <= r < |roots| ==> Fine(d, roots[r]))
      ensures d.SpreadFree() && d.UniqueArgs() ==>
                (errs == [] <==> forall r :: 0 <= r < |roots| ==> NoClash(d, roots[r]))
      ensures d.SpreadFree() && d.UniqueArgs() ==> forall i :: 0 <= i < |errs| ==> IsExplained(d, errs[i])
      ensures d.Sighted().WellFormed() && forall r :: 0 <= r < |roots| ==> d.Sighted().Has(roots[r])
      ensures d.SpreadFree() && d.UniqueArgs() ==>
                ((errs == [] && forall r :: 0 <= r < |roots| ==> NothingHidden(d, roots[r])) <==>
                 forall r :: 0 <= r < |roots| ==> Fine(d.Sighted(), roots[r]))
      ensures d.SpreadFree() && d.UniqueArgs() && d.VariableFree() ==>
                (errs == [] <==> forall r :: 0 <= r < |roots| ==> Fine(d.Sighted(), roots[r]))
    {
      hide Flat, FlatAll, Mergeable, Below, Fine, FineNode, NothingHidden, NoClash;
      for r := 0 to |roots|
        invariant Agrees() && (Ideal() ==> Settled())
        invariant Ideal() ==> dirty || forall r' :: 0 <= r' < r ==> Fine(d, roots[r'])
        invariant Ideal() && (forall r' :: 0 <= r' < |roots| ==> Fine(d, roots[r'])) ==> errs == []
      {
        ValidateSelectionSet(roots[r], |d.nodes|);
      }
      RootsSighted(d, roots);
      forall r | 0 <= r < |roots|
        ensures Fine(d, roots[r]) <==> NoClash(d, roots[r])
      {
        FineIff(d, roots[r]);
      }
    }
  }

  lemma RootsSighted(d: Doc, roots: seq<seq<nat>>)
    requires d.WellFormed() && d.blind && (forall r :: 0 <= r < |roots| ==> d.Has(roots[r]))
    ensures d.Sighted().WellFormed() && forall r :: 0 <= r < |roots| ==> d.Sighted().Has(roots[r])
    ensures forall r :: 0 <= r < |roots| ==>
              (Fine(d.Sighted(), roots[r]) <==> Fine(d, roots[r]) && NothingHidden(d, roots[r]))
    ensures d.VariableFree() ==> forall r :: 0 <= r < |roots| ==> NothingHidden(d, roots[r])
  {
    hide Fine, NothingHidden;
    SightedHas(d);
    forall r | 0 <= r < |roots|
      ensures d.Sighted().Has(roots[r])
      ensures Fine(d.Sighted(), roots[r]) <==> Fine(d, roots[r]) && NothingHidden(d, roots[r])
      ensures d.VariableFree() ==> NothingHidden(d, roots[r])
    {
      FineSighted(d, roots[r]);
      if d.VariableFree() {
        WithoutVariablesNothingHidden(d, roots[r]);
      }
    }
  }

  lemma ExtendsTwice(a: Memory, b: Memory, c: Memory)
    requires Extends(a, b) && Extends(b, c)
    ensures Extends(a, c)
  {
    assert c.errs[..|a.errs|] == c.errs[..|b.errs|][..|a.errs|];
  }

  lemma NewErrorsAreExplained(d: Doc, xs: set<nat>, ys: set<nat>, before: Memory, after: Memory, reasons: seq<Reason>)
    requires d.WellFormed() && AreFields(d, xs) && AreFields(d, ys)
    requires Reports(d, xs, ys, before, after, reasons) && Extends(before, after)
    requires forall i :: 0 <= i < |before.errs| ==> IsExplained(d, before.errs[i])
    ensures forall i :: 0 <= i < |after.errs| ==> IsExplained(d, after.errs[i])
  {
    hide ErrorAbout;
    forall i | 0 <= i < |after.errs|
      ensures IsExplained(d, after.errs[i])
    {
      if i < |before.errs| {
        assert after.errs[i] == before.errs[i];
      } else {
        assert ErrorFrom(d, xs, ys, after.errs[i]);
      }
    }
  }
}
