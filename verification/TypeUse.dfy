/**
 Where a variable may be used: the validator compares the type of the variable
 with the type of the position, layer by layer.
 */
module TypeUse {
  import opened Query

  /** A value: null, a list, or a value of one of the named types, which have no values in common. */
  datatype Value = Null | List(items: seq<Value>) | Atom(typeName: string, id: int)

  ghost predicate HasType(v: Value, t: Type) {
    match t
    case NonNullOf(of) => v != Null && HasType(v, of)
    case ListOf(of) => v == Null || (v.List? && forall x :: x in v.items ==> HasType(x, of))
    case Named(name) => v == Null || (v.Atom? && v.typeName == name)
  }

  /** No non-null type directly inside another. */
  predicate WellFormed(t: Type) {
    match t
    case NonNullOf(of) => !of.NonNullOf? && WellFormed(of)
    case ListOf(of) => WellFormed(of)
    case Named(_) => true
  }

  /** Identity of type objects: identical types are equal, and there is one object for each named type. */
  ghost predicate Identity(same: (Type, Type) -> bool) {
    && (forall a, b :: same(a, b) ==> a == b)
    && (forall name :: same(Named(name), Named(name)))
  }

  function CanBeUsedAs(same: (Type, Type) -> bool, t: Type, pos: Type): bool {
    if pos.NonNullOf? && !t.NonNullOf? then false
    else
      var t', pos' := Nullable(t), Nullable(pos);
      if same(t', pos') then true
      else if t'.ListOf? && pos'.ListOf? then CanBeUsedAs(same, t'.of, pos'.of)
      else false
  }

  function Nullable(t: Type): Type {
    if t.NonNullOf? then t.of else t
  }

  lemma {:induction false} UsableKeepsValues(same: (Type, Type) -> bool, t: Type, pos: Type, v: Value)
    requires Identity(same) && CanBeUsedAs(same, t, pos) && HasType(v, t)
    ensures HasType(v, pos)
    decreases t
  {
    var t', pos' := Nullable(t), Nullable(pos);
    assert HasType(v, t');
    if !same(t', pos') && v.List? {
      forall x | x in v.items
        ensures HasType(x, pos'.of)
      {
        UsableKeepsValues(same, t'.of, pos'.of, x);
      }
    }
  }

  /** A value that the variable may have and the position may not. */
  lemma {:induction false} Misfit(same: (Type, Type) -> bool, t: Type, pos: Type) returns (v: Value)
    requires Identity(same) && WellFormed(t) && WellFormed(pos) && !CanBeUsedAs(same, t, pos)
    ensures HasType(v, t) && !HasType(v, pos)
    decreases t
  {
    var t', pos' := Nullable(t), Nullable(pos);
    if pos.NonNullOf? && !t.NonNullOf? {
      v := Null;
    } else if t'.ListOf? && pos'.ListOf? {
      var x := Misfit(same, t'.of, pos'.of);
      v := List([x]);
      assert x in v.items;
    } else if t'.ListOf? {
      v := List([]);
    } else {
      v := Atom(t'.name, 0);
    }
  }

  /** A variable is let into a position exactly if every value it may have is one the position accepts. */
  lemma UsableIffValuesFit(same: (Type, Type) -> bool, t: Type, pos: Type)
    requires Identity(same) && WellFormed(t) && WellFormed(pos)
    ensures CanBeUsedAs(same, t, pos) <==> forall v :: HasType(v, t) ==> HasType(v, pos)
  {
    if CanBeUsedAs(same, t, pos) {
      forall v | HasType(v, t)
        ensures HasType(v, pos)
      {
        UsableKeepsValues(same, t, pos, v);
      }
    } else {
      var v := Misfit(same, t, pos);
    }
  }

  lemma {:induction false} UsableIsReflexive(same: (Type, Type) -> bool, t: Type)
    requires Identity(same) && WellFormed(t)
    ensures CanBeUsedAs(same, t, t)
  {
    UsableIffValuesFit(same, t, t);
  }

  lemma {:induction false} UsableIsTransitive(same: (Type, Type) -> bool, t: Type, u: Type, w: Type)
    requires Identity(same) && WellFormed(t) && WellFormed(u) && WellFormed(w)
    requires CanBeUsedAs(same, t, u) && CanBeUsedAs(same, u, w)
    ensures CanBeUsedAs(same, t, w)
  {
    UsableIffValuesFit(same, t, u);
    UsableIffValuesFit(same, u, w);
    UsableIffValuesFit(same, t, w);
  }

  /** Being usable both ways round means being the same type. */
  lemma {:induction false} UsableBothWays(same: (Type, Type) -> bool, t: Type, u: Type)
    requires Identity(same) && WellFormed(t) && WellFormed(u)
    ensures CanBeUsedAs(same, t, u) && CanBeUsedAs(same, u, t) <==> t == u
    decreases t
  {
    UsableIsReflexive(same, t);
    var t', u' := Nullable(t), Nullable(u);
    if t'.ListOf? && u'.ListOf? {
      UsableBothWays(same, t'.of, u'.of);
    }
  }
}
