/**
 The fields of a struct and of the structs embedded in it, found level by level.
 A struct type may embed itself, through a pointer.
 */
module StructFields {
  import opened Wrappers
  import opened DominantFields

  datatype GoType = Struct(id: nat) | Pointer(of: GoType) | Other

  /** `tag` is the field's JSON tag. */
  datatype StructField = StructField(name: string, exported: bool, anonymous: bool, typ: GoType, tag: string)

  /** The struct types of a program, by number, and which tag names are valid. */
  datatype Program = Program(structs: seq<seq<StructField>>, validTag: string -> bool)
  {
    ghost predicate WellFormed() {
      forall t, i :: 0 <= t < |structs| && 0 <= i < |structs[t]| && Deref(structs[t][i].typ).Struct? ==>
        Deref(structs[t][i].typ).id < |structs|
    }
  }

  function Deref(t: GoType): GoType {
    if t.Pointer? then t.of else t
  }

  /** The part of a tag before the first comma. */
  function TagName(tag: string): string {
    if tag == "" || tag[0] == ',' then "" else [tag[0]] + TagName(tag[1..])
  }

  datatype Action = Ignore | Record(name: string, tagged: bool) | Explore(id: nat)

  function Inspect(p: Program, f: StructField): Action {
    var t := Deref(f.typ);
    if !f.exported && !(f.anonymous && t.Struct?) then Ignore
    else if f.tag == "-" then Ignore
    else
      var name := if p.validTag(TagName(f.tag)) then TagName(f.tag) else "";
      if name != "" then Record(name, true)
      else if f.anonymous && t.Struct? then Explore(t.id)
      else Record(f.name, false)
  }

  function At(p: Program, t: nat, i: nat): Action {
    if t < |p.structs| && i < |p.structs[t]| then Inspect(p, p.structs[t][i]) else Ignore
  }

  // ----- paths through embedded structs -----

  function Walk(p: Program, root: nat, path: seq<nat>): Option<nat> {
    if path == [] then Some(root)
    else
      var before := Walk(p, root, Front(path));
      if before.Some? && At(p, before.value, Last(path)).Explore?
      then Some(At(p, before.value, Last(path)).id) else None
  }

  lemma WalkOneMore(p: Program, root: nat, path: seq<nat>, t: nat, i: nat)
    requires Walk(p, root, path) == Some(t)
    ensures Walk(p, root, path + [i]) == if At(p, t, i).Explore? then Some(At(p, t, i).id) else None
  {
    assert (path + [i])[..|path|] == path;
  }

  /** `path` leads to struct `t`, and no path to it is shorter. */
  ghost predicate Nearest(p: Program, root: nat, path: seq<nat>, t: nat) {
    Walk(p, root, path) == Some(t) && forall other: seq<nat> :: Walk(p, root, other) == Some(t) ==> |path| <= |other|
  }

  /** `index` is the path to a field that is to be recorded. */
  ghost predicate Records(p: Program, root: nat, index: seq<nat>, c: Candidate) {
    index != [] && c.index == index &&
    var t := Walk(p, root, Front(index));
    t.Some? && At(p, t.value, Last(index)) == Record(c.name, c.tagged)
  }

  function Holder(p: Program, root: nat, c: Candidate): Option<nat> {
    if c.index == [] then None else Walk(p, root, Front(c.index))
  }

  /** The embedded field `i` of struct `u` ends a shortest path to `t`. */
  ghost predicate Edge(p: Program, root: nat, a: seq<nat>, u: nat, i: nat, t: nat) {
    At(p, u, i) == Explore(t) && Nearest(p, root, a, u) && Nearest(p, root, a + [i], t)
  }

  /** Two different embedded fields end shortest paths to `t`. */
  ghost predicate Doubled(p: Program, root: nat, t: nat) {
    exists a, u, i, b, v, j :: Edge(p, root, a, u, i, t) && Edge(p, root, b, v, j, t) && (u, i) != (v, j)
  }

  // ----- what the search finds -----

  ghost predicate Sound(p: Program, root: nat, found: seq<Candidate>) {
    forall c :: c in found ==>
      Records(p, root, c.index, c) && Nearest(p, root, Front(c.index), Holder(p, root, c).value)
  }

  ghost predicate Complete(p: Program, root: nat, found: seq<Candidate>) {
    forall c: Candidate :: Records(p, root, c.index, c) ==> exists d :: d in found && SameField(p, root, c, d)
  }

  /** The same field of the same struct, perhaps along different paths. */
  ghost predicate SameField(p: Program, root: nat, c: Candidate, d: Candidate) {
    c.index != [] && d.index != [] && Holder(p, root, c) == Holder(p, root, d) && Last(c.index) == Last(d.index)
  }

  function Front(s: seq<nat>): seq<nat> {
    if s == [] then [] else s[..|s| - 1]
  }

  function Last(s: seq<nat>): nat
    requires s != []
  {
    s[|s| - 1]
  }

  /** Each struct is searched along one path; a field is found twice if its struct is doubled, and once otherwise. */
  ghost predicate Exact(p: Program, root: nat, found: seq<Candidate>) {
    && (forall c, d :: c in found && d in found && SameField(p, root, c, d) ==> c == d)
    && (forall c :: c in found ==>
          Holder(p, root, c).Some? && multiset(found)[c] == if Doubled(p, root, Holder(p, root, c).value) then 2 else 1)
  }

  ghost predicate Collected(p: Program, root: nat, found: seq<Candidate>) {
    Sound(p, root, found) && Complete(p, root, found) && Exact(p, root, found)
  }

  // ----- Go's rule -----

  /** By Go's rule, extended by tags, a field is visible if it beats every other field of its name, wherever it is. */
  ghost predicate Visible(p: Program, root: nat, c: Candidate) {
    Records(p, root, c.index, c) &&
    forall d: Candidate :: Records(p, root, d.index, d) && d.index != c.index && d.name == c.name ==> Beats(c, d)
  }

  /** The struct that holds `c` is reached on one shortest path only. */
  ghost predicate OneShortestPath(p: Program, root: nat, c: Candidate) {
    Holder(p, root, c).Some? && forall other :: Nearest(p, root, other, Holder(p, root, c).value) ==>
    other == Front(c.index)
  }

  lemma SamePlace(p: Program, root: nat, c: Candidate, d: Candidate)
    requires Records(p, root, c.index, c) && Records(p, root, d.index, d) && SameField(p, root, c, d)
    ensures c.name == d.name && c.tagged == d.tagged
    ensures Front(c.index) == Front(d.index) ==> c == d
  {
    hide Walk, At;
    assert c.index == Front(c.index) + [Last(c.index)];
    assert d.index == Front(d.index) + [Last(d.index)];
  }

  lemma FoundIsRecorded(p: Program, root: nat, found: seq<Candidate>, c: Candidate)
    requires Collected(p, root, found) && c in found
    ensures Records(p, root, c.index, c) && c.index != [] && Holder(p, root, c).Some?
    ensures Nearest(p, root, Front(c.index), Holder(p, root, c).value)
    ensures multiset(found)[c] == if Doubled(p, root, Holder(p, root, c).value) then 2 else 1
  {
    hide Walk, At, Complete, Doubled, Nearest;
  }

  /** Every field was found, along a path that is not longer. */
  lemma FoundFor(p: Program, root: nat, found: seq<Candidate>, d: Candidate) returns (e: Candidate)
    requires Collected(p, root, found) && Records(p, root, d.index, d)
    ensures e in found && SameField(p, root, d, e) && e.name == d.name && e.tagged == d.tagged
    ensures |e.index| <= |d.index| && e.index != [] && d.index != []
    ensures Front(e.index) == Front(d.index) ==> e == d
    ensures Holder(p, root, d).Some? &&
            (|e.index| == |d.index| ==> Nearest(p, root, Front(d.index), Holder(p, root, d).value))
  {
    hide Walk, At, Exact, Records, Nearest, Holder, Sound;
    e :| e in found && SameField(p, root, d, e);
    FoundIsRecorded(p, root, found, e);
    SamePlace(p, root, d, e);
    NearestIsNotLonger(p, root, d, Front(e.index), Holder(p, root, e).value);
  }

  lemma NearestIsNotLonger(p: Program, root: nat, d: Candidate, path: seq<nat>, t: nat)
    requires Records(p, root, d.index, d) && Holder(p, root, d) == Some(t) && Nearest(p, root, path, t)
    ensures |path| + 1 <= |d.index|
    ensures |path| + 1 == |d.index| ==> Nearest(p, root, Front(d.index), t)
  {
    hide Walk, At;
  }

  lemma IndexDecides(p: Program, root: nat, c: Candidate, d: Candidate)
    requires Records(p, root, c.index, c) && Records(p, root, d.index, d) && c.index == d.index
    ensures c == d
  {
  }

  /** No field at all, however deep it is embedded, is shallower than the survivor of its name. */
  lemma SurvivorIsShallowest(p: Program, root: nat, found: seq<Candidate>, c: Candidate, d: Candidate)
    requires Collected(p, root, found) && SurvivesAmong(multiset(found), c)
    requires Records(p, root, d.index, d) && d.name == c.name
    ensures |c.index| <= |d.index|
  {
    hide Collected, Records, SameField, Holder, Nearest;
    var e := FoundFor(p, root, found, d);
    assert e in multiset(found);
    assert e == c || Beats(c, e);
  }

  /** The same field along another shortest path to its struct. */
  lemma AlongAnother(p: Program, root: nat, path: seq<nat>, t: nat, c: Candidate)
    requires Records(p, root, c.index, c) && c.index != [] && Holder(p, root, c) == Some(t) &&
             Walk(p, root, path) == Some(t)
    ensures (var d := c.(index := path + [Last(c.index)]);
             Records(p, root, d.index, d) && Front(d.index) == path && |d.index| == |path| + 1)
  {
    hide Walk, At;
  }

  lemma VisibleIsFound(p: Program, root: nat, found: seq<Candidate>, c: Candidate)
    requires Collected(p, root, found) && Visible(p, root, c)
    ensures c in found
  {
    hide Collected, Records, SameField, Holder, Nearest;
    var e := FoundFor(p, root, found, c);
    FoundIsRecorded(p, root, found, e);
    assert !Beats(c, e);
    assert e.index == c.index;
    IndexDecides(p, root, c, e);
  }

  lemma VisibleOnOnePath(p: Program, root: nat, c: Candidate)
    requires Visible(p, root, c) && Holder(p, root, c).Some? &&
             Nearest(p, root, Front(c.index), Holder(p, root, c).value)
    ensures OneShortestPath(p, root, c)
  {
    hide Walk, At;
    var t := Holder(p, root, c).value;
    forall other | Nearest(p, root, other, t)
      ensures other == Front(c.index)
    {
      AlongAnother(p, root, other, t, c);
      var d := c.(index := other + [Last(c.index)]);
      assert !Beats(c, d);
    }
  }

  /** A visible field was found, once, and nothing found of its name beats it. */
  lemma VisibleSurvives(p: Program, root: nat, found: seq<Candidate>, c: Candidate)
    requires Collected(p, root, found) && Visible(p, root, c)
    ensures SurvivesAmong(multiset(found), c) && OneShortestPath(p, root, c)
  {
    hide Collected, Records, SameField, Holder, Nearest, Doubled, Beats;
    VisibleIsFound(p, root, found, c);
    FoundIsRecorded(p, root, found, c);
    VisibleOnOnePath(p, root, c);
    OneEdge(p, root, Holder(p, root, c).value, Front(c.index));
    forall d | d in multiset(found) && d != c && d.name == c.name
      ensures Beats(c, d)
    {
      FoundIsRecorded(p, root, found, d);
      if d.index == c.index {
        IndexDecides(p, root, c, d);
      }
    }
  }

  lemma OneEdge(p: Program, root: nat, t: nat, path: seq<nat>)
    requires forall other :: Nearest(p, root, other, t) ==> other == path
    ensures !Doubled(p, root, t)
  {
    hide Walk, At;
    forall a, u: nat, i: nat, b, v: nat, j: nat | Edge(p, root, a, u, i, t) && Edge(p, root, b, v, j, t)
      ensures (u, i) == (v, j)
    {
      assert a + [i] == path == b + [j];
      assert a == Front(path) == b;
      assert i == Last(path) == j;
    }
  }

  lemma SurvivorIsVisible(p: Program, root: nat, found: seq<Candidate>, c: Candidate)
    requires Collected(p, root, found) && SurvivesAmong(multiset(found), c) && OneShortestPath(p, root, c)
    ensures Visible(p, root, c)
  {
    hide Collected, Records, Holder, Nearest, Walk, Doubled;
    assert c in found;
    FoundIsRecorded(p, root, found, c);
    forall d: Candidate | Records(p, root, d.index, d) && d.index != c.index && d.name == c.name
      ensures Beats(c, d)
    {
      var e := FoundFor(p, root, found, d);
      if e != c {
        assert e in multiset(found);
        assert Beats(c, e);
      }
    }
  }

  /** The search agrees with Go's rule except for a struct with several shortest paths to it: a field is visible
      exactly if it survives and the struct that holds it has one shortest path. */
  lemma VisibleIff(p: Program, root: nat, found: seq<Candidate>, c: Candidate)
    requires Collected(p, root, found)
    ensures Visible(p, root, c) <==> SurvivesAmong(multiset(found), c) && OneShortestPath(p, root, c)
  {
    hide Collected, Visible, SurvivesAmong, OneShortestPath;
    if Visible(p, root, c) {
      VisibleSurvives(p, root, found, c);
    }
    if SurvivesAmong(multiset(found), c) && OneShortestPath(p, root, c) {
      SurvivorIsVisible(p, root, found, c);
    }
  }

  // ----- a survivor that Go's rule hides -----

  /** An embedded field is called like its type. */
  function Embedded(name: string, id: nat): StructField {
    StructField(name, true, true, Struct(id), "")
  }

  /** The outermost struct embeds two structs, both embed a third, that embeds a fourth, and it has a field `x`. */
  function Diamond(): Program {
    Program([[Embedded("Left", 1), Embedded("Right", 2)], [Embedded("Shared", 3)], [Embedded("Shared", 3)],
             [Embedded("Inner", 4)], [StructField("x", true, false, Other, "")]],
            _ => false)
  }

  function DiamondDepth(t: nat): nat {
    if t == 0 then 0 else if t <= 2 then 1 else t - 1
  }

  lemma DiamondEdges(t: nat, i: nat)
    ensures At(Diamond(), t, i).Explore? ==> DiamondDepth(At(Diamond(), t, i).id) == DiamondDepth(t) + 1
    ensures DiamondDepth(0) == 0 && DiamondDepth(4) == 3
    ensures At(Diamond(), t, i) == Explore(4) <==> t == 3 && i == 0
    ensures At(Diamond(), t, i) == Explore(3) <==> (t == 1 || t == 2) && i == 0
    ensures At(Diamond(), t, i).Record? <==> t == 4 && i == 0
    ensures At(Diamond(), 4, 0) == Record("x", false)
    ensures At(Diamond(), 0, 0) == Explore(1) && At(Diamond(), 0, 1) == Explore(2)
  {
  }

  lemma {:induction false} DiamondWalk(path: seq<nat>)
    ensures Walk(Diamond(), 0, path).Some? ==> |path| == DiamondDepth(Walk(Diamond(), 0, path).value)
    decreases |path|
  {
    hide At, Diamond, DiamondDepth;
    if path != [] && Walk(Diamond(), 0, path).Some? {
      DiamondWalk(Front(path));
      DiamondEdges(Walk(Diamond(), 0, Front(path)).value, Last(path));
    } else {
      DiamondEdges(0, 0);
    }
  }

  lemma DiamondPath(side: nat)
    requires side < 2
    ensures Nearest(Diamond(), 0, [side, 0, 0], 4)
  {
    hide At, Diamond;
    DiamondEdges(0, side);
    DiamondEdges(1, 0);
    DiamondEdges(2, 0);
    DiamondEdges(3, 0);
    var p := Diamond();
    WalkOneMore(p, 0, [], 0, side);
    assert [] + [side] == [side];
    WalkOneMore(p, 0, [side], side + 1, 0);
    assert [side] + [0] == [side, 0];
    WalkOneMore(p, 0, [side, 0], 3, 0);
    assert [side, 0] + [0] == [side, 0, 0];
    forall other: seq<nat> | Walk(p, 0, other) == Some(4)
      ensures 3 <= |other|
    {
      DiamondWalk(other);
    }
  }

  /** A field promoted through a struct that is itself embedded twice survives, although two equally short paths
      lead to it: only the fields of the doubled struct itself are recorded twice. */
  lemma HiddenFieldSurvives(found: seq<Candidate>) returns (c: Candidate)
    requires Collected(Diamond(), 0, found)
    ensures c.name == "x" && SurvivesAmong(multiset(found), c) && !Visible(Diamond(), 0, c)
  {
    hide At, Diamond, Walk, Nearest, Collected, Visible;
    var p := Diamond();
    DiamondPath(0);
    DiamondPath(1);
    var x := Candidate("x", false, [0, 0, 0, 0]);
    DiamondEdges(4, 0);
    DiamondHolds(x);
    c := FoundFor(p, 0, found, x);
    FoundIsRecorded(p, 0, found, c);
    forall a, u: nat, i: nat, b, v: nat, j: nat | Edge(p, 0, a, u, i, 4) && Edge(p, 0, b, v, j, 4)
      ensures (u, i) == (v, j)
    {
      DiamondEdges(u, i);
      DiamondEdges(v, j);
    }
    forall d | d in multiset(found)
      ensures d == c
    {
      DiamondOnly(found, c, d);
    }
    assert [0, 0, 0] != [1, 0, 0];
    VisibleIff(p, 0, found, c);
  }

  lemma DiamondHolds(x: Candidate)
    requires x == Candidate("x", false, [0, 0, 0, 0])
    ensures Records(Diamond(), 0, x.index, x) && Holder(Diamond(), 0, x) == Some(4)
  {
    hide At, Diamond;
    DiamondPath(0);
    DiamondEdges(4, 0);
    assert Front(x.index) == [0, 0, 0];
  }

  lemma DiamondOnly(found: seq<Candidate>, c: Candidate, d: Candidate)
    requires Collected(Diamond(), 0, found) && c in found && d in found
    ensures c == d
  {
    hide At, Diamond, Walk, Nearest;
    FoundIsRecorded(Diamond(), 0, found, c);
    FoundIsRecorded(Diamond(), 0, found, d);
    DiamondEdges(Holder(Diamond(), 0, c).value, Last(c.index));
    DiamondEdges(Holder(Diamond(), 0, d).value, Last(d.index));
    assert SameField(Diamond(), 0, c, d);
  }
}
