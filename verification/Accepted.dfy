/**
 Whatever tokens the parser accepts are one of the ways to write the document it
 makes of them, and every document it can make can be written in full.
 */
module Accepted {
  import opened Wrappers
  import opened Query
  import opened Ordering
  import opened Syntax
  import opened Spelling

  // ----- what is parsed was written -----

  lemma {:induction false} LiteralWasWritten(ts: seq<Token>, constOnly: bool) returns (f: LiteralForm)
    requires ParseLiteral(ts, constOnly).Ok?
    ensures LiteralFits(f, constOnly)
    ensures ParseLiteral(ts, constOnly).value == MeantLiteral(f)
    ensures ts == WriteLiteral(f, ParseLiteral(ts, constOnly).rest)
    decreases |ts|, 0
  {
    hide SortFields, WriteEntries, WriteNamed, ParseEntries, ParseFields, MeantEntries, MeantFields;
    assert ts == [ts[0]] + ts[1..];
    if ts[0] == Name("null") {
      f := NullWord;
    } else if ts[0].Lit? {
      f := Word(ts[0].kind, ts[0].text);
    } else if ts[0].ch == '$' {
      f := DollarName(ts[1].text);
      assert ts[1..] == [ts[1]] + ts[1..][1..];
    } else if ts[0].ch == '-' {
      f := Negated(ts[1].kind, ts[1].text);
      assert ts[1..] == [ts[1]] + ts[1..][1..];
    } else if ts[0].ch == '[' {
      var entries := EntriesWereWritten(ts[1..], constOnly);
      f := Bracketed(entries);
    } else {
      var fields := FieldsWereWritten(ts[1..], constOnly);
      f := Braced(fields);
    }
  }

  lemma {:induction false} EntriesWereWritten(ts: seq<Token>, constOnly: bool) returns (fs: seq<LiteralForm>)
    requires ParseEntries(ts, constOnly).Ok?
    ensures forall f :: f in fs ==> LiteralFits(f, constOnly)
    ensures ParseEntries(ts, constOnly).value == MeantEntries(fs)
    ensures ts == WriteEntries(fs, [Punct(']')] + ParseEntries(ts, constOnly).rest)
    decreases |ts|, 1
  {
    hide ParseLiteral, WriteLiteral, LiteralFits, MeantLiteral;
    if Sees(ts, ']') {
      fs := [];
      assert ts == [ts[0]] + ts[1..];
    } else {
      var first := LiteralWasWritten(ts, constOnly);
      var more := EntriesWereWritten(ParseLiteral(ts, constOnly).rest, constOnly);
      fs := [first] + more;
      assert fs[1..] == more;
    }
  }

  /** A name, a colon and a literal. */
  lemma {:induction false} NamedWasWritten(ts: seq<Token>, constOnly: bool) returns (f: NamedForm)
    requires SeesName(ts) && Sees(ts[1..], ':') && ParseLiteral(ts[1..][1..], constOnly).Ok?
    ensures LiteralFits(f.value, constOnly) && f.name == ts[0].text
    ensures (var r := ParseLiteral(ts[1..][1..], constOnly);
             MeantLiteral(f.value) == r.value && ts == WriteOne(f, r.rest))
    decreases |ts|, 0
  {
    hide ParseLiteral, WriteLiteral, LiteralFits, MeantLiteral;
    var value := LiteralWasWritten(ts[1..][1..], constOnly);
    f := NamedForm(ts[0].text, value);
    assert ts == [ts[0]] + ts[1..] && ts[1..] == [ts[1]] + ts[1..][1..];
  }

  lemma {:induction false} FieldsWereWritten(ts: seq<Token>, constOnly: bool) returns (fs: seq<NamedForm>)
    requires ParseFields(ts, constOnly).Ok?
    ensures forall f :: f in fs ==> LiteralFits(f.value, constOnly)
    ensures ParseFields(ts, constOnly).value == MeantFields(fs)
    ensures ts == WriteNamed(fs, [Punct('}')] + ParseFields(ts, constOnly).rest)
    decreases |ts|, 1
  {
    hide ParseLiteral, WriteOne, LiteralFits, MeantLiteral;
    if Sees(ts, '}') {
      fs := [];
      assert ts == [ts[0]] + ts[1..];
    } else {
      var first := NamedWasWritten(ts, constOnly);
      var more := FieldsWereWritten(ParseObjectField(ts, constOnly).rest, constOnly);
      fs := [first] + more;
      assert fs[1..] == more;
    }
  }

  lemma {:induction false} ArgsWereWritten(ts: seq<Token>) returns (fs: seq<NamedForm>)
    requires ParseArgs(ts).Ok?
    ensures forall f :: f in fs ==> LiteralFits(f.value, false)
    ensures ParseArgs(ts).value == MeantArgs(fs) && ts == WriteNamed(fs, [Punct(')')] + ParseArgs(ts).rest)
    decreases |ts|
  {
    hide ParseLiteral, WriteOne, LiteralFits, MeantLiteral;
    if Sees(ts, ')') {
      fs := [];
      assert ts == [ts[0]] + ts[1..];
    } else {
      var first := NamedWasWritten(ts, false);
      var more := ArgsWereWritten(ParseArgument(ts).rest);
      fs := [first] + more;
      assert fs[1..] == more;
    }
  }

  lemma ArgumentsWereWritten(ts: seq<Token>) returns (args: Option<seq<NamedForm>>)
    requires ParseOptionalArguments(ts).Ok?
    ensures (var r := ParseOptionalArguments(ts);
             && ArgumentsFit(args) && r.value == MeantArguments(args) && ts == WriteArguments(args, r.rest)
             && (args.None? ==> !Sees(r.rest, '(')))
  {
    hide ParseArgs, WriteNamed, LiteralFits, MeantArgs;
    if Sees(ts, '(') {
      var fs := ArgsWereWritten(ts[1..]);
      args := Some(fs);
      assert ts == [ts[0]] + ts[1..];
    } else {
      args := None;
    }
  }

  lemma {:induction false} DirectivesWereWritten(ts: seq<Token>) returns (ds: seq<DirectiveForm>)
    requires ParseDirectives(ts).Ok?
    ensures (var r := ParseDirectives(ts);
             && DirectivesFit(ds) && r.value == MeantDirectives(ds) && ts == WriteDirectives(ds, r.rest)
             && !Sees(r.rest, '@') && (LeftOpen(ds) ==> !Sees(r.rest, '(')))
    decreases |ts|
  {
    hide ParseOptionalArguments, WriteArguments, ArgumentsFit, MeantArguments;
    if Sees(ts, '@') {
      assert ts == [ts[0]] + ts[1..] && ts[1..] == [ts[1]] + ts[1..][1..];
      var args := ArgumentsWereWritten(ts[1..][1..]);
      var more := DirectivesWereWritten(ParseDirective(ts[1..]).rest);
      ds := [DirectiveForm(ts[1].text, args)] + more;
      assert ds[1..] == more;
      assert more == [] ==> ParseDirectives(ts).rest == ParseDirective(ts[1..]).rest;
    } else {
      ds := [];
    }
  }

  lemma {:induction false} TypeWasWritten(ts: seq<Token>)
    requires ParseType(ts).Ok?
    ensures TypeFits(ParseType(ts).value) && ts == WriteType(ParseType(ts).value, ParseType(ts).rest)
    decreases |ts|, 1
  {
    hide ParseNullType;
    NullTypeWasWritten(ts);
    var t := ParseNullType(ts);
    if Sees(t.rest, '!') {
      assert t.rest == [t.rest[0]] + t.rest[1..];
    }
  }

  lemma {:induction false} NullTypeWasWritten(ts: seq<Token>)
    requires ParseNullType(ts).Ok?
    ensures (var r := ParseNullType(ts);
             TypeFits(r.value) && !r.value.NonNullOf? && ts == WriteType(r.value, r.rest))
    decreases |ts|, 0
  {
    hide ParseType;
    assert ts == [ts[0]] + ts[1..];
    if Sees(ts, '[') {
      TypeWasWritten(ts[1..]);
      var of := ParseType(ts[1..]);
      assert of.rest == [of.rest[0]] + of.rest[1..];
    }
  }

  lemma DefaultWasWritten(ts: seq<Token>) returns (d: Option<LiteralForm>)
    requires ParseDefault(ts).Ok?
    ensures (var r := ParseDefault(ts);
             && (d.Some? ==> LiteralFits(d.value, true)) && r.value == MeantDefault(d) && ts == WriteDefault(d, r.rest))
  {
    hide ParseLiteral, WriteLiteral, LiteralFits, MeantLiteral;
    if Sees(ts, '=') {
      var f := LiteralWasWritten(ts[1..], true);
      d := Some(f);
      assert ts == [ts[0]] + ts[1..];
    } else {
      d := None;
    }
  }

  lemma DescriptionWasWritten(ts: seq<Token>) returns (d: Option<Token>)
    ensures (d.Some? ==> IsDescription(d.value)) && ts == WriteDescription(d, SkipDescription(ts))
  {
    if SkipDescription(ts) == ts {
      d := None;
    } else {
      d := Some(ts[0]);
      assert ts == [ts[0]] + ts[1..];
    }
  }

  lemma InputWasWritten(ts: seq<Token>) returns (v: InputForm)
    requires ParseVariable(ts).Ok?
    ensures (var r := ParseVariable(ts); InputFits(v) && r.value == MeantInput(v) && ts == WriteInput(v, r.rest))
  {
    hide ParseType, WriteType, ParseDefault, WriteDefault, ParseDirectives, WriteDirectives, MeantDefault,
         MeantDirectives, SkipDescription, WriteDescription, TypeFits, LiteralFits, DirectivesFit;
    assert ts == [ts[0]] + ts[1..];
    var description := DescriptionWasWritten(ts[1..]);
    var one := SkipDescription(ts[1..]);
    assert one == [one[0]] + one[1..] && one[1..] == [one[1]] + one[1..][1..];
    var two := one[1..][1..];
    TypeWasWritten(two);
    var typ := ParseType(two);
    var default := DefaultWasWritten(typ.rest);
    var directives := DirectivesWereWritten(ParseDefault(typ.rest).rest);
    v := InputForm(description, one[0].text, typ.value, default, directives);
  }

  lemma {:induction false} InputsWereWritten(ts: seq<Token>) returns (vs: seq<InputForm>)
    requires ParseVars(ts).Ok?
    ensures forall v :: v in vs ==> InputFits(v)
    ensures ParseVars(ts).value == MeantInputs(vs) && ts == WriteInputs(vs, [Punct(')')] + ParseVars(ts).rest)
    decreases |ts|
  {
    hide ParseVariable, WriteInput, InputFits, MeantDefault, MeantDirectives;
    if Sees(ts, ')') {
      vs := [];
      assert ts == [ts[0]] + ts[1..];
    } else {
      var first := InputWasWritten(ts);
      var more := InputsWereWritten(ParseVariable(ts).rest);
      vs := [first] + more;
      assert vs[1..] == more;
    }
  }

  lemma VariablesWereWritten(ts: seq<Token>) returns (vars: Option<seq<InputForm>>)
    requires ParseOptionalVars(ts).Ok?
    ensures (var r := ParseOptionalVars(ts);
             && (vars.Some? ==> Sees(ts, '(') && forall v :: v in vars.value ==> InputFits(v))
             && r.value == (if vars.Some? then MeantInputs(vars.value) else []) && ts == WriteVariables(vars, r.rest))
  {
    hide ParseVars, WriteInputs, InputFits, MeantInputs;
    if Sees(ts, '(') {
      var vs := InputsWereWritten(ts[1..]);
      vars := Some(vs);
      assert ts == [ts[0]] + ts[1..];
    } else {
      vars := None;
    }
  }

  // ----- selections -----

  lemma {:induction false} SetWasWritten(ts: seq<Token>) returns (sels: seq<SelectionForm>)
    requires ParseSelectionSet(ts).Ok?
    ensures (var r := ParseSelectionSet(ts);
             SelectionsFit(sels) && r.value == MeantSelections(sels) && ts == WriteSet(sels, r.rest))
    decreases |ts|, 0
  {
    hide ParseSelections, WriteSelections, SelectionsFit, MeantSelections;
    sels := SelectionsWereWritten(ts[1..]);
    assert ts == [ts[0]] + ts[1..];
  }

  lemma {:induction false} SelectionsWereWritten(ts: seq<Token>) returns (sels: seq<SelectionForm>)
    requires ParseSelections(ts).Ok?
    ensures (var r := ParseSelections(ts);
             && SelectionsFit(sels) && r.value == MeantSelections(sels)
             && ts == WriteSelections(sels, [Punct('}')] + r.rest))
    decreases |ts|, 4
  {
    hide ParseSelection, WriteSelection, SelectionFits, MeantSelection;
    if Sees(ts, '}') {
      sels := [];
      assert ts == [ts[0]] + ts[1..];
    } else {
      var first := SelectionWasWritten(ts);
      var more := SelectionsWereWritten(ParseSelection(ts).rest);
      sels := [first] + more;
      assert sels[1..] == more;
    }
  }

  lemma {:induction false} SelectionWasWritten(ts: seq<Token>) returns (s: SelectionForm)
    requires ParseSelection(ts).Ok?
    ensures (var r := ParseSelection(ts);
             SelectionFits(s) && r.value == MeantSelection(s) && ts == WriteSelection(s, r.rest))
    decreases |ts|, 3
  {
    hide ParseField, ParseSpread, WriteSelection, SelectionFits, MeantSelection;
    if Sees(ts, '.') {
      s := DottedWasWritten(ts);
    } else {
      s := FieldWasWritten(ts);
    }
  }

  lemma {:induction false} FieldWasWritten(ts: seq<Token>) returns (s: SelectionForm)
    requires ParseField(ts).Ok?
    ensures (var r := ParseField(ts);
             SelectionFits(s) && Field(r.value) == MeantSelection(s) && ts == WriteSelection(s, r.rest))
    decreases |ts|, 2
  {
    hide ParseOptionalArguments, ParseDirectives, WriteArguments, WriteDirectives, MeantArguments, MeantDirectives,
         ArgumentsFit, DirectivesFit, SelectionsFit, WriteSet, ParseSelectionSet, MeantSelections;
    NothingSelected();
    assert ts == [ts[0]] + ts[1..];
    var one := ts[1..];
    var name := None;
    if Sees(one, ':') {
      assert one == [one[0]] + one[1..] && one[1..] == [one[1]] + one[1..][1..];
      name := Some(one[1].text);
    }
    var two := ParseFieldName(one, ts[0].text).rest;
    assert one == WriteOptional([Punct(':')], name, two);
    var args := ArgumentsWereWritten(two);
    var three := ParseOptionalArguments(two).rest;
    var directives := DirectivesWereWritten(three);
    var four := ParseDirectives(three).rest;
    if Sees(four, '{') {
      var sels := SetWasWritten(four);
      s := FieldForm(ts[0].text, name, args, directives, true, sels);
    } else {
      s := FieldForm(ts[0].text, name, args, directives, false, []);
    }
  }

  lemma NothingSelected()
    ensures SelectionsFit([]) && MeantSelections([]) == []
  {
  }

  lemma {:induction false} DottedWasWritten(ts: seq<Token>) returns (s: SelectionForm)
    requires ParseSpread(ts).Ok?
    ensures (var r := ParseSpread(ts);
             SelectionFits(s) && r.value == MeantSelection(s) && ts == WriteSelection(s, r.rest))
    decreases |ts|, 2
  {
    hide ParseDirectives, WriteDirectives, MeantDirectives, DirectivesFit, SelectionsFit, WriteSet, ParseSelectionSet,
         MeantSelections;
    var one := ts[3..];
    assert ts == Dots(one);
    if SeesName(one) && one[0].text != "on" {
      assert one == [one[0]] + one[1..];
      var directives := DirectivesWereWritten(one[1..]);
      s := SpreadForm(one[0].text, directives);
    } else {
      var on, two := None, one;
      if SeesName(one) {
        assert one == [one[0]] + one[1..] && one[1..] == [one[1]] + one[1..][1..];
        on, two := Some(one[1].text), one[1..][1..];
      }
      assert one == WriteOptional([Name("on")], on, two);
      var directives := DirectivesWereWritten(two);
      var sels := SetWasWritten(ParseDirectives(two).rest);
      s := InlineForm(on, directives, sels);
    }
  }

  // ----- definitions -----

  lemma OperationWasWritten(ts: seq<Token>, op: OperationType) returns (d: DefinitionForm)
    requires ParseOperation(ts, op).Ok?
    ensures (var r := ParseOperation(ts, op);
             && DefinitionFits(d) && Op(r.value) == MeantDefinition(d)
             && [Name(KeywordOf(op))] + ts == WriteDefinition(d, r.rest))
  {
    hide ParseDirectives, WriteDirectives, MeantDirectives, DirectivesFit, SelectionsFit, WriteSet, ParseSelectionSet,
         MeantSelections, ParseOptionalVars, WriteVariables, MeantInputs, InputFits;
    var name, one := None, ts;
    if SeesName(ts) {
      name, one := Some(ts[0].text), ts[1..];
      assert ts == [] + ([ts[0]] + ts[1..]);
    }
    assert ts == WriteOptional([], name, one);
    var directives := DirectivesWereWritten(one);
    var two := ParseDirectives(one).rest;
    var vars := VariablesWereWritten(two);
    var sels := SetWasWritten(ParseOptionalVars(two).rest);
    d := OperationForm(op, name, directives, vars, sels);
  }

  lemma FragmentWasWritten(ts: seq<Token>) returns (d: DefinitionForm)
    requires ParseFragment(ts).Ok?
    ensures (var r := ParseFragment(ts);
             && DefinitionFits(d) && Frag(r.value) == MeantDefinition(d)
             && [Name("fragment")] + ts == WriteDefinition(d, r.rest))
  {
    hide ParseDirectives, WriteDirectives, MeantDirectives, DirectivesFit, SelectionsFit, WriteSet, ParseSelectionSet,
         MeantSelections;
    var one, two := ts[1..], ts[1..][1..];
    var three := two[1..];
    assert ts == [ts[0]] + one && one == [one[0]] + two && two == [two[0]] + three;
    var directives := DirectivesWereWritten(three);
    var sels := SetWasWritten(ParseDirectives(three).rest);
    d := FragmentForm(ts[0].text, two[0].text, directives, sels);
  }

  lemma DefinitionWasWritten(ts: seq<Token>) returns (d: DefinitionForm)
    requires ParseDefinition(ts).Ok?
    ensures (var r := ParseDefinition(ts);
             DefinitionFits(d) && r.value == MeantDefinition(d) && ts == WriteDefinition(d, r.rest))
  {
    hide ParseSelectionSet, ParseOperation, ParseFragment, WriteDefinition, DefinitionFits;
    if Sees(ts, '{') {
      var sels := SetWasWritten(ts);
      d := Shorthand(sels);
      ShorthandWritten(sels, ParseSelectionSet(ts).rest);
    } else {
      assert ts == [ts[0]] + ts[1..];
      if ts[0].text == "query" {
        d := OperationWasWritten(ts[1..], QueryOp);
      } else if ts[0].text == "mutation" {
        d := OperationWasWritten(ts[1..], MutationOp);
      } else if ts[0].text == "subscription" {
        d := OperationWasWritten(ts[1..], SubscriptionOp);
      } else {
        d := FragmentWasWritten(ts[1..]);
      }
    }
  }

  lemma ShorthandWritten(sels: seq<SelectionForm>, rest: seq<Token>)
    ensures WriteDefinition(Shorthand(sels), rest) == WriteSet(sels, rest)
    ensures DefinitionFits(Shorthand(sels)) == SelectionsFit(sels)
  {
  }

  lemma {:induction false} DefinitionsWereWritten(ts: seq<Token>, doc: Document) returns (ds: seq<DefinitionForm>)
    requires ParseDocument(ts, doc).Some?
    ensures (forall d :: d in ds ==> DefinitionFits(d)) && ts == WriteDefinitions(ds)
    decreases |ts|
  {
    hide ParseDefinition, WriteDefinition, DefinitionFits;
    if ts == [] {
      ds := [];
    } else {
      var first := DefinitionWasWritten(ts);
      var d := ParseDefinition(ts);
      var more := DefinitionsWereWritten(d.rest, With(doc, d.value));
      ds := [first] + more;
      assert ds[1..] == more;
    }
  }

  /** The parser accepts just what is a way to write a document, and gives just that document. */
  lemma ParseIff(ts: seq<Token>, doc: Document)
    ensures Parse(ts) == Some(doc) <==> Spells(ts, doc)
  {
    hide ParseDocument, WriteDefinitions, MeantDocument, DefinitionFits;
    var none := Document([], []);
    if Parse(ts) == Some(doc) {
      var ds := DefinitionsWereWritten(ts, none);
      DefinitionsAreParsed(ds, none);
      assert Joined(none, MeantDocument(ds)) == MeantDocument(ds);
    }
    if Spells(ts, doc) {
      var ds: seq<DefinitionForm> :|
        (forall d :: d in ds ==> DefinitionFits(d)) && ts == WriteDefinitions(ds) && doc == MeantDocument(ds);
      DefinitionsAreParsed(ds, none);
      assert Joined(none, MeantDocument(ds)) == MeantDocument(ds);
    }
  }
}
