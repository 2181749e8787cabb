/**
 Lists of leaves, as their type means them and as they are written: a list that
 stands directly inside a list is written with the wrong element type.
 */
module LeafLists {
  import opened Query
  import opened ExecutionSpec
  import opened ResponseTree

  /** The value layer by layer as the type says. */
  function Meant(env: Env, t: Type, v: Value): Tree
    decreases t
  {
    match t
    case NonNullOf(of) => if env.brokenElement(v) then Broken else Meant(env, of, v)
    case Named(name) =>
      (match env.marshal(v, name)
       case Some(text) => Text(text)
       case None => Broken)
    case ListOf(of) =>
      if v.Slice? then Array(seq(|v.elements|, i requires 0 <= i < |v.elements| => Meant(env, of, v.elements[i])))
      else Broken
  }

  /** A value of the type: slices where it has lists, and leaves that can be encoded. */
  predicate HasShape(env: Env, t: Type, v: Value)
    decreases t
  {
    match t
    case NonNullOf(of) => !env.brokenElement(v) && HasShape(env, of, v)
    case Named(name) => !v.Slice? && env.marshal(v, name).Some?
    case ListOf(of) => v.Slice? && forall e :: e in v.elements ==> HasShape(env, of, e)
  }

  /** The test for broken elements is made for pointers. */
  ghost predicate SlicesNotBroken(env: Env) {
    forall v: Value :: v.Slice? ==> !env.brokenElement(v)
  }

  predicate HasLeaf(v: Value) {
    v.Slice? ==> exists e :: e in v.elements && HasLeaf(e)
  }

  /** No leaf lies in a list that stands directly inside a list. */
  predicate NoLeafInNested(t: Type, v: Value)
    decreases t
  {
    match t
    case NonNullOf(of) => NoLeafInNested(of, v)
    case Named(_) => true
    case ListOf(of) =>
      if of.ListOf? then !HasLeaf(v) else v.Slice? ==> forall e :: e in v.elements ==> NoLeafInNested(of, e)
  }

  // ----- depths -----

  function ListDepth(t: Type): nat {
    match t
    case NonNullOf(of) => ListDepth(of)
    case Named(_) => 0
    case ListOf(of) => ListDepth(of) + 1
  }

  /** How many lists stand directly inside each other. */
  function DirectDepth(t: Type): nat {
    if t.ListOf? then DirectDepth(t.of) + 1 else 0
  }

  /** All leaves lie `d` slices deep. */
  predicate LeavesAt(v: Value, d: nat)
    decreases v
  {
    if v.Slice? then d > 0 && forall e :: e in v.elements ==> LeavesAt(e, d - 1) else d == 0
  }

  lemma {:induction false} ShapeHasDepth(env: Env, t: Type, v: Value)
    requires HasShape(env, t, v)
    ensures LeavesAt(v, ListDepth(t))
    decreases t
  {
    match t
    case NonNullOf(of) => ShapeHasDepth(env, of, v);
    case Named(_) =>
    case ListOf(of) =>
      forall e | e in v.elements
        ensures LeavesAt(e, ListDepth(of))
      {
        ShapeHasDepth(env, of, e);
      }
  }

  // ----- the elements of a list -----

  lemma {:induction false} MeantIsWhole(env: Env, t: Type, v: Value)
    requires HasShape(env, t, v)
    ensures !HasBroken(Meant(env, t, v))
    decreases t
  {
    match t
    case NonNullOf(of) => MeantIsWhole(env, of, v);
    case Named(_) =>
    case ListOf(of) =>
      forall i | 0 <= i < |v.elements|
        ensures !HasBroken(Meant(env, of, v.elements[i]))
      {
        MeantIsWhole(env, of, v.elements[i]);
      }
  }

  /** As many elements as there are values means that none before the last broke. */
  lemma {:induction false} AllWritten(env: Env, leafType: Type, elementType: Type, vs: seq<Value>)
    ensures var es := BuildLeaves(env, leafType, elementType, vs);
            |es| <= |vs| && (|es| == |vs| ==> forall i :: 0 <= i < |vs| ==>
                             es[i] == BuildLeafElement(env, leafType, elementType, vs[i]))
  {
    hide BuildLeafElement, HasBroken;
    if vs != [] {
      AllWritten(env, leafType, elementType, vs[..|vs| - 1]);
    }
  }

  lemma {:induction false} NoneBreaks(env: Env, leafType: Type, elementType: Type, vs: seq<Value>)
    requires forall x :: x in vs ==> !HasBroken(BuildLeafElement(env, leafType, elementType, x))
    ensures |BuildLeaves(env, leafType, elementType, vs)| == |vs|
  {
    hide BuildLeafElement, HasBroken;
    if vs != [] {
      var before, last := vs[..|vs| - 1], vs[|vs| - 1];
      NoneBreaks(env, leafType, elementType, before);
      AllWritten(env, leafType, elementType, before);
      if before != [] {
        assert before[|before| - 1] in vs;
      }
    }
  }

  lemma {:induction false} OneBreaks(env: Env, leafType: Type, elementType: Type, vs: seq<Value>, x: Value)
    requires x in vs && HasBroken(BuildLeafElement(env, leafType, elementType, x))
    ensures HasBroken(Array(BuildLeaves(env, leafType, elementType, vs)))
  {
    hide BuildLeafElement;
    var before, last := vs[..|vs| - 1], vs[|vs| - 1];
    OnlyLastLeafBroken(env, leafType, elementType, vs);
    if x in before {
      OneBreaks(env, leafType, elementType, before, x);
      OnlyLastLeafBroken(env, leafType, elementType, before);
    }
  }

  // ----- values without leaves -----

  function Brackets(v: Value): Tree {
    if v.Slice? then Array(seq(|v.elements|, i requires 0 <= i < |v.elements| => Brackets(v.elements[i])))
    else Array([])
  }

  lemma {:induction false} BracketsAreWhole(v: Value)
    ensures !HasBroken(Brackets(v))
  {
    if v.Slice? {
      forall i | 0 <= i < |v.elements|
        ensures !HasBroken(Brackets(v.elements[i]))
      {
        BracketsAreWhole(v.elements[i]);
      }
    }
  }

  lemma {:induction false} MeantBrackets(env: Env, t: Type, v: Value)
    requires HasShape(env, t, v) && !HasLeaf(v)
    ensures Meant(env, t, v) == Brackets(v)
    decreases t
  {
    match t
    case NonNullOf(of) => MeantBrackets(env, of, v);
    case Named(_) =>
    case ListOf(of) =>
      forall i | 0 <= i < |v.elements|
        ensures Meant(env, of, v.elements[i]) == Brackets(v.elements[i])
      {
        MeantBrackets(env, of, v.elements[i]);
      }
  }

  lemma {:induction false} WrittenBrackets(env: Env, t: Type, v: Value, d: nat)
    requires SlicesNotBroken(env) && !HasLeaf(v) && LeavesAt(v, d) && d <= ListDepth(t)
    ensures BuildLeaf(env, t, v) == Brackets(v)
    decreases v, 1, t
  {
    hide SlicesNotBroken, BuildLeafList;
    match t
    case NonNullOf(of) =>
      SliceIsNotBroken(env, v);
      WrittenBrackets(env, of, v, d);
    case Named(_) =>
    case ListOf(of) =>
      WrittenListBrackets(env, of, of, v, d);
  }

  lemma SliceIsNotBroken(env: Env, v: Value)
    requires SlicesNotBroken(env) && v.Slice?
    ensures !env.brokenElement(v)
  {
  }

  lemma {:induction false} WrittenListBrackets(env: Env, leafType: Type, elementType: Type, v: Value, d: nat)
    requires SlicesNotBroken(env) && !HasLeaf(v) && LeavesAt(v, d) && d <= ListDepth(leafType) + 1
    ensures BuildLeafList(env, leafType, elementType, v) == Brackets(v)
    decreases v, 0, elementType
  {
    hide SlicesNotBroken, BuildLeaf, HasBroken, BuildLeaves;
    forall e | e in v.elements
      ensures BuildLeafElement(env, leafType, elementType, e) == Brackets(e)
      ensures !HasBroken(BuildLeafElement(env, leafType, elementType, e))
    {
      BracketsAreWhole(e);
      if elementType.ListOf? {
        WrittenListBrackets(env, leafType, elementType.of, e, d - 1);
      } else {
        WrittenBrackets(env, leafType, e, d - 1);
      }
    }
    NoneBreaks(env, leafType, elementType, v.elements);
    AllWritten(env, leafType, elementType, v.elements);
  }

  // ----- leaves that are written as lists -----

  lemma {:induction false} LeafBreaks(env: Env, t: Type, v: Value, d: nat)
    requires HasLeaf(v) && LeavesAt(v, d) && d < ListDepth(t)
    ensures HasBroken(BuildLeaf(env, t, v))
    decreases v, 1, t
  {
    hide BuildLeafList;
    match t
    case NonNullOf(of) => LeafBreaks(env, of, v, d);
    case ListOf(of) => LeafBreaksList(env, of, of, v, d);
  }

  lemma {:induction false} LeafBreaksList(env: Env, leafType: Type, elementType: Type, v: Value, d: nat)
    requires HasLeaf(v) && LeavesAt(v, d) && d < ListDepth(leafType) + 1 + DirectDepth(elementType)
    ensures HasBroken(BuildLeafList(env, leafType, elementType, v))
    decreases v, 0, elementType
  {
    hide BuildLeaf, BuildLeaves;
    if v.Slice? {
      var e :| e in v.elements && HasLeaf(e);
      if elementType.ListOf? {
        LeafBreaksList(env, leafType, elementType.of, e, d - 1);
      } else {
        LeafBreaks(env, leafType, e, d - 1);
      }
      OneBreaks(env, leafType, elementType, v.elements, e);
    }
  }

  // ----- what is written -----

  /** A value of a leaf type is written as the type means it exactly if no leaf of it lies in a list that stands
      directly inside a list; if one does, the field is dropped. */
  lemma {:induction false} WrittenAsMeantIff(env: Env, t: Type, v: Value)
    requires SlicesNotBroken(env) && HasShape(env, t, v)
    ensures BuildLeaf(env, t, v) == Meant(env, t, v) <==> NoLeafInNested(t, v)
    ensures !NoLeafInNested(t, v) ==> HasBroken(BuildLeaf(env, t, v))
    decreases t, 0
  {
    hide SlicesNotBroken;
    MeantIsWhole(env, t, v);
    match t
    case NonNullOf(of) => WrittenAsMeantIff(env, of, v);
    case Named(_) =>
    case ListOf(of) =>
      if of.ListOf? {
        ShapeHasDepth(env, t, v);
        if HasLeaf(v) {
          LeafBreaksList(env, of, of, v, ListDepth(t));
        } else {
          MeantBrackets(env, t, v);
          WrittenBrackets(env, t, v, ListDepth(t));
        }
      } else {
        ListAsMeantIff(env, of, v);
      }
  }

  lemma ListAsMeantIff(env: Env, of: Type, v: Value)
    requires SlicesNotBroken(env) && HasShape(env, ListOf(of), v) && !of.ListOf?
    ensures BuildLeaf(env, ListOf(of), v) == Meant(env, ListOf(of), v) <==> NoLeafInNested(ListOf(of), v)
    ensures !NoLeafInNested(ListOf(of), v) ==> HasBroken(BuildLeaf(env, ListOf(of), v))
    decreases of, 1
  {
    hide SlicesNotBroken, BuildLeaves;
    var vs := v.elements;
    forall e | e in vs
      ensures BuildLeaf(env, of, e) == Meant(env, of, e) <==> NoLeafInNested(of, e)
      ensures !NoLeafInNested(of, e) ==> HasBroken(BuildLeaf(env, of, e))
      ensures !HasBroken(Meant(env, of, e))
    {
      WrittenAsMeantIff(env, of, e);
      MeantIsWhole(env, of, e);
    }
    MeantIsWhole(env, ListOf(of), v);
    if NoLeafInNested(ListOf(of), v) {
      NoneBreaks(env, of, of, vs);
      AllWritten(env, of, of, vs);
    } else {
      var e :| e in vs && !NoLeafInNested(of, e);
      OneBreaks(env, of, of, vs, e);
    }
  }
}
