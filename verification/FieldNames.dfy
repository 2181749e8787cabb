/**
 What the search makes of a field, told from its flags, its type and the text of
 its tag alone, and which fields a struct has, told from chains of embedded structs.
 */
module FieldNames {
  import opened Wrappers
  import opened DominantFields
  import opened StructFields

  // ----- one field -----

  /** `name` is the part of `tag` before the first comma, or all of it if there is none. */
  ghost predicate BeforeComma(tag: string, name: string) {
    name <= tag && ',' !in name && (name == tag || tag[|name|] == ',')
  }

  /** Struct `id` is embedded by the field, itself or through a pointer. */
  ghost predicate Embeds(f: StructField, id: nat) {
    f.anonymous && (f.typ == Struct(id) || f.typ == Pointer(Struct(id)))
  }

  /** A field is passed over if its tag says so, or if it is unexported and embeds no struct. */
  ghost predicate PassedBy(f: StructField) {
    f.tag == "-" || (!f.exported && forall id :: !Embeds(f, id))
  }

  /** The tag gives the field a name. */
  ghost predicate Renamed(p: Program, f: StructField, name: string) {
    BeforeComma(f.tag, name) && name != "" && p.validTag(name)
  }

  ghost predicate IsRenamed(p: Program, f: StructField) {
    exists name :: Renamed(p, f, name)
  }

  /** The field is one of its struct's own, under `name`: the one its tag gives, or else its own name. */
  ghost predicate Named(p: Program, f: StructField, name: string, tagged: bool) {
    !PassedBy(f) &&
    if tagged then Renamed(p, f, name)
    else !IsRenamed(p, f) && (forall id :: !Embeds(f, id)) && name == f.name
  }

  /** The fields of struct `id` are to be found through the field. */
  ghost predicate Opens(p: Program, f: StructField, id: nat) {
    !PassedBy(f) && !IsRenamed(p, f) && Embeds(f, id)
  }

  lemma {:induction false} NameIsBeforeComma(tag: string, name: string)
    ensures BeforeComma(tag, name) <==> name == TagName(tag)
  {
    if tag == "" || tag[0] == ',' {
      assert name != "" ==> name[0] in name;
    } else {
      NameIsBeforeComma(tag[1..], TagName(tag[1..]));
      assert BeforeComma(tag, TagName(tag)) by {
        assert TagName(tag) == [tag[0]] + TagName(tag[1..]);
      }
      if BeforeComma(tag, name) {
        assert name != "";
        NameIsBeforeComma(tag[1..], name[1..]);
        assert name == [name[0]] + name[1..];
      }
    }
  }

  lemma RenamedByTag(p: Program, f: StructField, name: string)
    ensures Renamed(p, f, name) <==> name == TagName(f.tag) && name != "" && p.validTag(name)
    ensures IsRenamed(p, f) <==> TagName(f.tag) != "" && p.validTag(TagName(f.tag))
  {
    forall n
      ensures Renamed(p, f, n) <==> n == TagName(f.tag) && n != "" && p.validTag(n)
    {
      NameIsBeforeComma(f.tag, n);
    }
  }

  lemma EmbedsByType(f: StructField, id: nat)
    ensures Embeds(f, id) <==> f.anonymous && Deref(f.typ) == Struct(id)
    ensures (exists any: nat :: Embeds(f, any)) <==> f.anonymous && Deref(f.typ).Struct?
  {
    if f.anonymous && Deref(f.typ).Struct? {
      assert Embeds(f, Deref(f.typ).id);
    }
  }

  /** What becomes of a field: it is passed over, recorded under a name, or opened, as its flags, its type and its
      tag say. */
  lemma FieldIsTreated(p: Program, f: StructField, name: string, tagged: bool, id: nat)
    ensures Inspect(p, f) == Ignore <==> PassedBy(f)
    ensures Inspect(p, f) == Record(name, tagged) <==> Named(p, f, name, tagged)
    ensures Inspect(p, f) == Explore(id) <==> Opens(p, f, id)
  {
    hide Embeds, Renamed, IsRenamed, TagName, Deref;
    RenamedByTag(p, f, name);
    RenamedByTag(p, f, f.name);
    EmbedsByType(f, id);
  }

  // ----- all fields of a struct -----

  ghost predicate HasField(p: Program, t: nat, i: nat) {
    t < |p.structs| && i < |p.structs[t]|
  }

  /** Each step of `path` is a field, of one struct of `chain`, that opens the next. */
  ghost predicate Chain(p: Program, chain: seq<nat>, path: seq<nat>) {
    |chain| == |path| + 1 &&
    forall k :: 0 <= k < |path| ==>
      HasField(p, chain[k], path[k]) && Opens(p, p.structs[chain[k]][path[k]], chain[k + 1])
  }

  /** `c` is a field of the struct, or of one embedded in it however deeply. */
  ghost predicate FieldOf(p: Program, root: nat, c: Candidate) {
    c.index != [] &&
    exists chain: seq<nat> :: Chain(p, chain, Front(c.index)) && chain[0] == root && Holds(p, chain, c)
  }

  ghost predicate Holds(p: Program, chain: seq<nat>, c: Candidate)
    requires |chain| == |c.index| > 0
  {
    var t, i := Last(chain), Last(c.index);
    HasField(p, t, i) && Named(p, p.structs[t][i], c.name, c.tagged)
  }

  /** By Go's rule, extended by tags: the field beats every other field of its name, wherever it is. */
  ghost predicate Promoted(p: Program, root: nat, c: Candidate) {
    FieldOf(p, root, c) &&
    forall d :: FieldOf(p, root, d) && d.index != c.index && d.name == c.name ==> Beats(c, d)
  }

  lemma AtIsTreated(p: Program, t: nat, i: nat, name: string, tagged: bool, id: nat)
    ensures At(p, t, i) == Record(name, tagged) <==>
            HasField(p, t, i) && Named(p, p.structs[t][i], name, tagged)
    ensures At(p, t, i) == Explore(id) <==> HasField(p, t, i) && Opens(p, p.structs[t][i], id)
  {
    hide Inspect, Named, Opens;
    if HasField(p, t, i) {
      FieldIsTreated(p, p.structs[t][i], name, tagged, id);
    }
  }

  lemma {:induction false} ChainOfWalk(p: Program, root: nat, path: seq<nat>, t: nat) returns (chain: seq<nat>)
    requires Walk(p, root, path) == Some(t)
    ensures Chain(p, chain, path) && chain[0] == root && Last(chain) == t
    decreases |path|
  {
    hide At, Opens;
    if path == [] {
      chain := [root];
    } else {
      var before := Walk(p, root, Front(path)).value;
      AtIsTreated(p, before, Last(path), "", false, t);
      var init := ChainOfWalk(p, root, Front(path), before);
      chain := init + [t];
      forall k | 0 <= k < |path|
        ensures HasField(p, chain[k], path[k]) && Opens(p, p.structs[chain[k]][path[k]], chain[k + 1])
      {
        assert k < |path| - 1 ==> Front(path)[k] == path[k];
      }
    }
  }

  lemma {:induction false} WalkOfChain(p: Program, root: nat, path: seq<nat>, chain: seq<nat>)
    requires Chain(p, chain, path) && chain[0] == root
    ensures Walk(p, root, path) == Some(Last(chain))
    decreases |path|
  {
    hide At, Opens;
    if path != [] {
      var n := |path| - 1;
      assert Chain(p, Front(chain), Front(path));
      WalkOfChain(p, root, Front(path), Front(chain));
      AtIsTreated(p, chain[n], path[n], "", false, chain[n + 1]);
    }
  }

  /** The fields to be recorded are the fields of the struct. */
  lemma FieldOfIff(p: Program, root: nat, c: Candidate)
    ensures Records(p, root, c.index, c) <==> FieldOf(p, root, c)
  {
    hide At, Walk, HasField, Named, Opens;
    if Records(p, root, c.index, c) {
      var t := Walk(p, root, Front(c.index)).value;
      AtIsTreated(p, t, Last(c.index), c.name, c.tagged, 0);
      var chain := ChainOfWalk(p, root, Front(c.index), t);
      assert Holds(p, chain, c) by { ChainLength(p, chain, c); }
    }
    if FieldOf(p, root, c) {
      var chain: seq<nat> :| Chain(p, chain, Front(c.index)) && chain[0] == root && Holds(p, chain, c);
      ChainLength(p, chain, c);
      WalkOfChain(p, root, Front(c.index), chain);
      AtIsTreated(p, Last(chain), Last(c.index), c.name, c.tagged, 0);
    }
  }

  lemma ChainLength(p: Program, chain: seq<nat>, c: Candidate)
    requires c.index != [] && Chain(p, chain, Front(c.index))
    ensures |chain| == |c.index|
  {
  }

  lemma PromotedIff(p: Program, root: nat, c: Candidate)
    ensures Visible(p, root, c) <==> Promoted(p, root, c)
  {
    hide Records, FieldOf, Beats;
    FieldOfIff(p, root, c);
    forall d: Candidate
      ensures Records(p, root, d.index, d) <==> FieldOf(p, root, d)
    {
      FieldOfIff(p, root, d);
    }
  }

  /** Whatever the search hands out is a field of the struct, and each promoted field is handed out. */
  lemma HandedOut(p: Program, root: nat, found: seq<Candidate>, c: Candidate)
    requires Collected(p, root, found)
    ensures SurvivesAmong(multiset(found), c) ==> FieldOf(p, root, c)
    ensures Promoted(p, root, c) ==> SurvivesAmong(multiset(found), c)
  {
    hide Collected, Records, Promoted, Visible, FieldOf, OneShortestPath;
    PromotedIff(p, root, c);
    VisibleIff(p, root, found, c);
    if SurvivesAmong(multiset(found), c) {
      assert c in found;
      FoundIsRecorded(p, root, found, c);
      FieldOfIff(p, root, c);
    }
  }
}
