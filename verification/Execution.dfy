/**
 The executor: it collects fields into a linked map, and streams the response
 into one buffer, which is cut back to where a field began when that field
 fails.  Each method is proved against the tree of the execution.
 */
module Execution {
  import opened Wrappers
  import opened Query
  import opened LinkedMap
  import opened ExecutionSpec
  import opened ResponseTree
  import opened Responses

  type FieldMap = LinkedMap<string, Selected>

  /** The map holds the collected fields, in order, each under its alias. */
  ghost predicate Holds(m: FieldMap, fields: seq<Selected>)
    reads m, m.repr
  {
    && m.Valid()
    && m.values == fields
    && |m.keys| == |fields|
    && forall i :: 0 <= i < |fields| ==> m.keys[i] == fields[i].field.alias
  }

  class Execution {
    const env: Env
    var data: string
    var errs: seq<Error>

    constructor (env: Env)
      ensures this.env == env && data == "" && errs == []
    {
      this.env, data, errs := env, "", [];
    }

    method AddError(e: Error)
      modifies this`errs
      ensures errs == old(errs) + [e]
    {
      errs := errs + [e];
    }

    /** Handles one field met while walking a selection set: it joins the field that has its alias, or else
        is put at the end of the map if it resolves. */
    method ResolveField(m: FieldMap, path: seq<string>, o: Occurrence, ghost fields: seq<Selected>)
      requires Holds(m, fields)
      modifies this`errs, m, m.repr
      ensures fresh(m.repr - old(m.repr))
      ensures Holds(m, WithOneMore(env, fields, o)) && errs == old(errs) + MissingNow(env, path, fields, o)
    {
      hide WithOneMore, HasAlias;
      var x, index := m.Get(o.field.alias);
      if x.Some? {
        // resolved before: its sub-selections are added
        forall i | 0 <= i < |fields| && i != index
          ensures fields[i].field.alias != o.field.alias
        {
          assert m.keys[i] != m.keys[index];
        }
        JoinChangesOne(env, fields, o, index);
        var sr := x.value.(selections := x.value.selections + o.field.selections);
        ghost var at := m.Set(o.field.alias, sr);
        assert m.keys[at] == m.keys[index];
        m.KeysAreUnique(index, at);
        return;
      }
      assert forall i :: 0 <= i < |fields| ==> m.keys[i] in m.keys;
      NewField(env, fields, o);
      match env.resolve(o.parent, o.parentType, o.field)
      case None =>
        AddError(Error(path + [o.field.alias], NoResolver));
      case Some(resolution) =>
        ghost var _ := m.Set(o.field.alias, Selected(o.field, resolution, o.field.selections));
    }

    method ResolveFields(m: FieldMap, path: seq<string>, ghost n: nat, parent: Value, parentType: Type,
                         sels: seq<Selection>, ghost fields: seq<Selected>)
      requires Holds(m, fields) && Bounded(env.fragments, sels, n)
      modifies this`errs, m, m.repr
      ensures fresh(m.repr - old(m.repr))
      ensures var occs := Flatten(env, n, parent, parentType, sels);
              Holds(m, CollectAll(env, fields, occs)) && errs == old(errs) + MissingAll(env, path, fields, occs)
      decreases n, sels, 0
    {
      hide Flatten, Flattened, CollectAll, MissingAll, WithOneMore, MissingNow;
      ghost var all := Flatten(env, n, parent, parentType, sels);
      ghost var todo, current := all, fields;
      for i := 0 to |sels|
        invariant fresh(m.repr - old(m.repr))
        invariant Holds(m, current)
        invariant todo == Flatten(env, n, parent, parentType, sels[i..])
        invariant CollectAll(env, current, todo) == CollectAll(env, fields, all)
        invariant errs + MissingAll(env, path, current, todo) == old(errs) + MissingAll(env, path, fields, all)
      {
        ghost var now := Flattened(env, n, parent, parentType, sels[i]);
        todo := Flatten(env, n, parent, parentType, sels[i + 1..]);
        FlattenNext(env, n, parent, parentType, sels, i);
        CollectAllOfSum(env, path, current, now, todo);
        ghost var before, a, b := errs, MissingAll(env, path, current, now),
          MissingAll(env, path, CollectAll(env, current, now), todo);
        assert (before + a) + b == before + (a + b);
        ResolveSelection(m, path, n, parent, parentType, sels[i], current);
        current := CollectAll(env, current, now);
      }
      assert sels[|sels|..] == [];
      FlattenNothing(env, n, parent, parentType);
      NothingCollected(path, current);
    }

    method ResolveSelection(m: FieldMap, path: seq<string>, ghost n: nat, parent: Value, parentType: Type,
                            s: Selection, ghost fields: seq<Selected>)
      requires Holds(m, fields) && BoundedOne(env.fragments, s, n)
      modifies this`errs, m, m.repr
      ensures fresh(m.repr - old(m.repr))
      ensures var occs := Flattened(env, n, parent, parentType, s);
              Holds(m, CollectAll(env, fields, occs)) && errs == old(errs) + MissingAll(env, path, fields, occs)
      decreases n, s, 2
    {
      hide Flatten, CollectAll, MissingAll, WithOneMore, MissingNow, Target;
      match s
      case Field(f) =>
        CollectFew(env, path, fields, Occurrence(f, parent, parentType));
        if !env.skip(f.directives) && f.schema.Some? {
          var o := Occurrence(f, parent, parentType);
          ResolveField(m, path, o, fields);
        }
      case Inline(on, directives, sels) =>
        NothingCollected(path, fields);
        if !env.skip(directives) {
          ResolveFragment(m, path, n, parent, parentType, on, sels, fields);
        }
      case Spread(name, directives) =>
        NothingCollected(path, fields);
        if !env.skip(directives) {
          var fragment := Lookup(env.fragments, name).value;
          ResolveFragment(m, path, n - 1, parent, parentType, fragment.on, fragment.selections, fields);
        }
    }

    lemma NothingCollected(path: seq<string>, fields: seq<Selected>)
      ensures CollectAll(env, fields, []) == fields && MissingAll(env, path, fields, []) == []
    {
    }

    method ResolveFragment(m: FieldMap, path: seq<string>, ghost n: nat, parent: Value, parentType: Type,
                           on: string, sels: seq<Selection>, ghost fields: seq<Selected>)
      requires Holds(m, fields) && Bounded(env.fragments, sels, n)
      modifies this`errs, m, m.repr
      ensures fresh(m.repr - old(m.repr))
      ensures var occs := match Target(env, on, parent, parentType)
                          case Some((p, t)) => Flatten(env, n, p, t, sels)
                          case None => [];
              Holds(m, CollectAll(env, fields, occs)) && errs == old(errs) + MissingAll(env, path, fields, occs)
      decreases n, sels, 1
    {
      hide Flatten, CollectAll, MissingAll, TypeString;
      NothingCollected(path, fields);
      if on != "" && on != TypeString(parentType) {
        var casted := env.cast(parent, on);
        if casted.Some? {
          ResolveFields(m, path, n, casted.value, Named(on), sels, fields);
        }
      } else {
        ResolveFields(m, path, n, parent, parentType, sels, fields);
      }
    }

    /** A query or a mutation, from its root: the whole response and the whole error list, whatever was there
        before.  Told from outcomes and types, the response is the one that fits, and the errors are those that
        belong to it. */
    method Execute(ghost n: nat, root: Value, rootType: Type, sels: seq<Selection>)
      requires Bounded(env.fragments, sels, n)
      modifies this`data, this`errs
      ensures var t := BuildObject(env, n, [], root, rootType, sels);
              data == Render(Pruned(t)) && errs == Errors(t)
      ensures exists j :: data == Render(j) && ObjectFits(env, n, root, rootType, sels, j)
      ensures forall e :: e in errs <==> ErrorIn(env, n, [], root, rootType, sels, e)
      decreases n, 2
    {
      hide ObjectFits, ErrorIn;
      Answered(n, [], root, rootType, sels);
      hide Flatten, CollectAll, MissingAll, BuildObject, BuildFields, Survivors, RenderMembers, Render, Pruned, Errors,
           FieldsErrors;
      ghost var occs := Flatten(env, n, root, rootType, sels);
      ObjectIsItsFields(env, n, [], root, rootType, sels);
      var rootFields := new LinkedMap();
      errs := [];
      ResolveFields(rootFields, [], n, root, rootType, sels, []);
      data := "";
      RecursiveExecute(rootFields, [], n, Collected(env, occs));
      assert [] + Missing(env, [], occs) == Missing(env, [], occs);
      StartsEmpty(Render(Pruned(BuildObject(env, n, [], root, rootType, sels))));
    }

    lemma Answered(n: nat, path: seq<string>, parent: Value, parentType: Type, sels: seq<Selection>)
      requires Bounded(env.fragments, sels, n)
      ensures var t := BuildObject(env, n, path, parent, parentType, sels);
              && ObjectFits(env, n, parent, parentType, sels, Pruned(t))
              && forall e :: e in Errors(t) <==> ErrorIn(env, n, path, parent, parentType, sels, e)
    {
      hide ObjectFits, ErrorIn, BuildObject, Errors, Pruned, Bounded;
      var t := BuildObject(env, n, path, parent, parentType, sels);
      ObjectIff(env, n, path, parent, parentType, sels, Pruned(t));
      forall e
        ensures e in Errors(t) <==> ErrorIn(env, n, path, parent, parentType, sels, e)
      {
        ErrorsIff(env, n, path, parent, parentType, sels, e);
      }
    }

    lemma StartsEmpty(text: string)
      ensures "" + text == text
    {
    }

    // ----- writing the response -----

    /** Starts a new object: collects the selections of one parent into a fresh map and writes it. */
    method WriteObject(path: seq<string>, ghost n: nat, parent: Value, parentType: Type, sels: seq<Selection>)
      requires Bounded(env.fragments, sels, n)
      modifies this`data, this`errs
      ensures var t := BuildObject(env, n, path, parent, parentType, sels);
              data == old(data) + Render(Pruned(t)) && errs == old(errs) + Errors(t)
      decreases n, 1
    {
      hide Flatten, CollectAll, MissingAll, BuildObject, BuildFields, Survivors, RenderMembers, Render, Pruned, Errors,
           FieldsErrors;
      ghost var before := errs;
      ghost var occs := Flatten(env, n, parent, parentType, sels);
      ObjectIsItsFields(env, n, path, parent, parentType, sels);
      var selectedFields := new LinkedMap();
      ResolveFields(selectedFields, path, n, parent, parentType, sels, []);
      ghost var missing, fields := Missing(env, path, occs), Collected(env, occs);
      RecursiveExecute(selectedFields, path, n, fields);
      assert (before + missing) + FieldsErrors(BuildFields(env, n, path, fields)) ==
             before + (missing + FieldsErrors(BuildFields(env, n, path, fields)));
    }

    /** Writes text, if the condition holds. */
    method WriteIf(condition: bool, text: string)
      modifies this`data
      ensures data == old(data) + (if condition then text else "")
    {
      if condition {
        data := data + text;
      }
    }

    /** Writes one field after its comma, and undoes all of it if the field fails. */
    method WriteField(path: seq<string>, ghost n: nat, selected: Selected, writeComma: bool) returns (written: bool)
      requires SelectedWithin(env, selected, n)
      modifies this`data, this`errs
      ensures var f := BuildField(env, n, path, selected);
              && written == f.failure.None?
              && data == (if written then old(data) + (if writeComma then "," else "") + Key(f.alias) +
                          Render(Pruned(f.value))
                          else old(data))
              && errs == old(errs) + Errors(f.value) + Failure(f)
      decreases n, 5
    {
      hide BuildField, Errors, Render, Pruned, Key;
      var offset := |data|;
      WriteIf(writeComma, ",");
      var failure := ExecuteSelected(path, n, selected);
      written := failure.None?;
      if failure.Some? {
        // undo any (likely partial) writes
        data := data[..offset];
        AddError(failure.value);
      }
    }

    /** Writes one more field behind `done`; says whether a comma is due from then on. */
    method WriteNext(path: seq<string>, ghost n: nat, selected: Selected, writeComma: bool, ghost start: string,
                     ghost base: seq<Error>, ghost done: seq<FieldTree>) returns (comma: bool)
      requires SelectedWithin(env, selected, n)
      requires data == start + RenderMembers(Survivors(done)) && errs == base + FieldsErrors(done)
      requires writeComma <==> Survivors(done) != []
      modifies this`data, this`errs
      ensures var more := done + [BuildField(env, n, path, selected)];
              && data == start + RenderMembers(Survivors(more)) && errs == base + FieldsErrors(more)
              && (comma <==> Survivors(more) != [])
      decreases n, 6
    {
      hide BuildField, Survivors, RenderMembers, Render, Pruned, Errors, Failure, FieldsErrors, Key;
      ghost var f := BuildField(env, n, path, selected);
      OneMoreField(done, f);
      FieldErrorList(base, done, f);
      if f.failure.None? {
        FieldText(start, done, f);
      }
      var written := WriteField(path, n, selected, writeComma);
      comma := writeComma || written;
    }

    /** Writes an object, field by field; a field that fails is cut off the buffer again. */
    method RecursiveExecute(selectedFields: FieldMap, path: seq<string>, ghost n: nat, ghost fields: seq<Selected>)
      requires Holds(selectedFields, fields) && FieldsWithin(env, fields, n)
      modifies this`data, this`errs
      ensures var t := BuildFields(env, n, path, fields);
              && data == old(data) + Render(JsonObject(Survivors(t)))
              && errs == old(errs) + FieldsErrors(t)
      decreases n, 0
    {
      hide BuildField, Survivors, RenderMembers, Render, Pruned, Errors, Failure, FieldsErrors, Key;
      ghost var t := BuildFields(env, n, path, fields);
      NothingYet(env, 0, path, Named(""), Named(""), []);
      data := data + "{";
      ghost var start, base, i, done := data, errs, 0, [];
      var writeComma := false;
      var entry := selectedFields.first;
      while entry != null
        invariant Holds(selectedFields, fields)
        invariant 0 <= i <= |fields| && done == t[..i]
        invariant entry == if i < |fields| then selectedFields.entries[i] else null
        invariant writeComma <==> Survivors(done) != []
        invariant data == start + RenderMembers(Survivors(done))
        invariant errs == base + FieldsErrors(done)
        decreases |fields| - i
      {
        writeComma := WriteNext(path, n - 1, entry.value, writeComma, start, base, done);
        entry := entry.next;
        FieldsSoFar(t, i);
        done := done + [t[i]];
        i := i + 1;
      }
      FieldsAtEnd(t);
      ObjectText(old(data), Survivors(t));
      data := data + "}";
    }

    lemma FieldsSoFar(t: seq<FieldTree>, i: nat)
      requires i < |t|
      ensures t[..i + 1] == t[..i] + [t[i]]
    {
    }

    lemma FieldsAtEnd(t: seq<FieldTree>)
      ensures t[..|t|] == t
    {
    }

    /** The buffer got the field's key and a value that fits it. */
    ghost predicate Answers(before: string, after: string, n: nat, selected: Selected)
      requires SelectedWithin(env, selected, n)
    {
      exists j :: MemberFits(env, n, selected, (selected.field.alias, j)) &&
                  after == before + Key(selected.field.alias) + Render(j)
    }

    /** Writes one field, unless its resolution or the writing of its value fails; then the buffer may be
        left with part of the field in it. */
    method ExecuteSelected(path: seq<string>, ghost n: nat, selected: Selected) returns (failure: Option<Error>)
      requires SelectedWithin(env, selected, n)
      modifies this`data, this`errs
      ensures var f := BuildField(env, n, path, selected);
              && errs == old(errs) + Errors(f.value)
              && (match f.failure
                  case None => failure == None && data == old(data) + Key(f.alias) + Render(Pruned(f.value))
                  case Some(cause) => failure == Some(Error(f.path, cause)) && old(data) <= data)
      ensures failure.Some? ==> failure.value.path == path + [selected.field.alias]
      ensures failure.Some? ==> FailsWith(env, selected, failure.value.cause)
      ensures failure.None? ==> Succeeds(env, selected) && Answers(old(data), data, n, selected)
      decreases n, 4
    {
      hide FailsWith, MemberFits;
      FieldIff(env, n, path, selected);
      var here := path + [selected.field.alias];
      match selected.outcome
      case Fails(message) =>
        return Some(Error(here, ResolverFailed(message)));
      case Yields(childValue) =>
        data := data + Key(selected.field.alias);
        var t := selected.field.schema.value;
        if childValue.Nil? {
          if t.NonNullOf? {
            return Some(Error(here, NilForNonNull));
          }
          data := data + "null";
          return None;
        }
        var panicked := WriteContent(here, n, Unwrapped(t), childValue, selected.selections);
        failure := if panicked then Some(Error(here, Panicked)) else None;
    }

    /** What a method that writes `t` does: it panics if `t` is broken, and otherwise appends its rendering. */
    twostate predicate Wrote(t: Tree, panicked: bool)
      reads this
    {
      && errs == old(errs) + Errors(t)
      && panicked == HasBroken(t)
      && old(data) <= data
      && (!panicked ==> data == old(data) + Render(Pruned(t)))
    }

    method WriteContent(path: seq<string>, ghost n: nat, t: Type, v: Value, sels: seq<Selection>)
      returns (panicked: bool)
      requires Bounded(env.fragments, sels, n)
      modifies this`data, this`errs
      ensures Wrote(BuildContent(env, n, path, t, v, sels), panicked)
      decreases n, 3
    {
      panicked := false;
      if sels == [] {
        panicked := WriteLeaf(t, v);
      } else {
        match t
        case ListOf(of) =>
          panicked := WriteList(path, n, of, v, sels);
        case Named(name) =>
          if env.composite(name) {
            WriteObject(path, n, v, t, sels);
          }
        case NonNullOf(_) =>
      }
    }

    method WriteList(path: seq<string>, ghost n: nat, elementType: Type, v: Value, sels: seq<Selection>)
      returns (panicked: bool)
      requires Bounded(env.fragments, sels, n)
      modifies this`data, this`errs
      ensures Wrote(BuildList(env, n, path, elementType, v, sels), panicked)
      decreases n, 2, elementType, v, 1
    {
      hide BuildElements, BuildElement, PrunedAll, RenderItems, HasBroken, Pruned, Render, Errors, ElementsErrors;
      NothingYet(env, n, path, elementType, elementType, sels);
      if !v.Slice? {
        NotASlice(env, n, path, elementType, elementType, v, sels);
        return true;
      }
      data := data + "[";
      ghost var start, base, es := data, errs, [];
      var i := 0;
      panicked := false;
      while i < |v.elements| && !panicked
        invariant 0 <= i <= |v.elements|
        invariant es == BuildElements(env, n, path, elementType, v.elements[..i], sels)
        invariant panicked == EndsBroken(es)
        invariant !panicked ==> |es| == i
        invariant start <= data && (!panicked ==> data == start + RenderItems(PrunedAll(es)))
        invariant errs == base + ElementsErrors(es)
      {
        ghost var e := BuildElement(env, n, path, elementType, v.elements[i], sels);
        NextElement(env, n, path, elementType, v.elements, sels, i);
        ElementText(start, es, e);
        ElementErrorList(base, es, e);
        WriteIf(i > 0, ",");
        panicked := WriteElement(path, n, elementType, v.elements[i], sels);
        es := es + [e];
        i := i + 1;
      }
      ArrayOfObjects(env, n, path, elementType, v, sels, i);
      if !panicked {
        data := data + "]";
      }
    }

    method WriteElement(path: seq<string>, ghost n: nat, elementType: Type, v: Value, sels: seq<Selection>)
      returns (panicked: bool)
      requires Bounded(env.fragments, sels, n)
      modifies this`data, this`errs
      ensures Wrote(BuildElement(env, n, path, elementType, v, sels), panicked)
      decreases n, 2, elementType, v, 0
    {
      panicked := false;
      if elementType.ListOf? {
        panicked := WriteList(path, n, elementType.of, v, sels);
      } else {
        WriteObject(path, n, v, elementType, sels);
      }
    }

    method WriteLeaf(t: Type, v: Value) returns (panicked: bool)
      modifies this`data
      ensures Wrote(BuildLeaf(env, t, v), panicked)
      decreases t, 0
    {
      match t
      case NonNullOf(of) =>
        if env.brokenElement(v) {
          return true;
        }
        panicked := WriteLeaf(of, v);
      case Named(name) =>
        var text := env.marshal(v, name);
        if text.Some? {
          data := data + text.value;
        }
        panicked := text.None?;
      case ListOf(of) =>
        panicked := WriteLeafList(of, of, v);
    }

    method WriteLeafList(leafType: Type, elementType: Type, v: Value) returns (panicked: bool)
      modifies this`data
      ensures Wrote(BuildLeafList(env, leafType, elementType, v), panicked)
      decreases leafType, 1, elementType, v, 1
    {
      hide BuildLeaves, BuildLeafElement, PrunedAll, RenderItems, HasBroken, Pruned, Render, Errors;
      NothingYet(env, 0, [], leafType, elementType, []);
      if !v.Slice? {
        NotASlice(env, 0, [], elementType, leafType, v, []);
        return true;
      }
      data := data + "[";
      ghost var start, es := data, [];
      var i := 0;
      panicked := false;
      while i < |v.elements| && !panicked
        invariant 0 <= i <= |v.elements|
        invariant es == BuildLeaves(env, leafType, elementType, v.elements[..i])
        invariant panicked == EndsBroken(es)
        invariant !panicked ==> |es| == i
        invariant start <= data && (!panicked ==> data == start + RenderItems(PrunedAll(es)))
      {
        ghost var e := BuildLeafElement(env, leafType, elementType, v.elements[i]);
        NextLeaf(env, leafType, elementType, v.elements, i);
        ElementText(start, es, e);
        WriteIf(i > 0, ",");
        panicked := WriteLeafElement(leafType, elementType, v.elements[i]);
        es := es + [e];
        i := i + 1;
      }
      ArrayOfLeaves(env, leafType, elementType, v, i);
      if !panicked {
        data := data + "]";
      }
    }

    method WriteLeafElement(leafType: Type, elementType: Type, v: Value) returns (panicked: bool)
      modifies this`data
      ensures Wrote(BuildLeafElement(env, leafType, elementType, v), panicked)
      decreases leafType, 1, elementType, v, 0
    {
      if elementType.ListOf? {
        panicked := WriteLeafList(leafType, elementType.of, v);
      } else {
        panicked := WriteLeaf(leafType, v);
      }
    }
  }
}
