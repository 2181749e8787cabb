/**
 What the parser can produce from the tokens the scanner finds, and what printing
 keeps of it.
 */
module Parsed {
  import opened Query
  import opened Syntax
  import opened Printing
  import opened RoundTrip
  import opened Unprintable

  /** The texts of names and literals are not empty, and none starts with a minus. */
  ghost predicate TokensOk(ts: seq<Token>) {
    forall t :: t in ts && t.Lit? ==> t.text != "" && t.text[0] != '-'
  }

  lemma RestOk(ts: seq<Token>, n: nat)
    requires TokensOk(ts) && n <= |ts|
    ensures TokensOk(ts[n..])
  {
  }

  lemma NameOk(ts: seq<Token>)
    requires TokensOk(ts)
    ensures (var r := ParseName(ts); r.Ok? ==> r.value != "" && TokensOk(r.rest))
  {
    if ts != [] {
      assert ts[0] in ts;
      RestOk(ts, 1);
    }
  }

  lemma ExpectOk(ts: seq<Token>, c: char)
    requires TokensOk(ts)
    ensures (var r := Expect(ts, c); r.Ok? ==> TokensOk(r.rest))
  {
    if ts != [] {
      RestOk(ts, 1);
    }
  }

  lemma BasicIsOk(ts: seq<Token>)
    requires TokensOk(ts)
    ensures (var r := ParseBasic(ts);
             r.Ok? ==> TokensOk(r.rest) && r.value.BasicLit? && r.value.text != "" && r.value.text[0] != '-')
  {
    if ts != [] {
      assert ts[0] in ts;
      RestOk(ts, 1);
    }
  }

  lemma {:induction false} LiteralIsOk(ts: seq<Token>, constOnly: bool)
    requires TokensOk(ts)
    ensures (var r := ParseLiteral(ts, constOnly); r.Ok? ==> LiteralOk(r.value, constOnly) && TokensOk(r.rest))
    decreases |ts|, 0
  {
    hide TokensOk, ParseBasic, ParseName, ParseEntries, ParseFields, SortFields, InOrder;
    if ts != [] {
      RestOk(ts, 1);
      if ts[0].Lit? {
        BasicIsOk(ts);
        FirstIsBasic(ts);
      } else if ts[0].ch == '$' {
        NameOk(ts[1..]);
      } else if ts[0].ch == '-' {
        BasicIsOk(ts[1..]);
        NegativeIsOk(ParseBasic(ts[1..]));
      } else if ts[0].ch == '[' {
        EntriesAreOk(ts[1..], constOnly);
      } else if ts[0].ch == '{' {
        FieldsAreOk(ts[1..], constOnly);
        var r := ParseFields(ts[1..], constOnly);
        if r.Ok? {
          SortIsSorted(r.value);
          SortHasTheSame(r.value, constOnly);
        }
      }
    }
  }

  lemma FirstIsBasic(ts: seq<Token>)
    requires ts != [] && ts[0].Lit?
    ensures ParseBasic(ts) == Ok(BasicLit(ts[0].kind, ts[0].text), ts[1..])
  {
  }

  lemma NegativeIsOk(p: Parsed<Literal>)
    requires p.Ok? ==> p.value.BasicLit? && p.value.text != "" && p.value.text[0] != '-'
    ensures (var r := Negative(p); r.Ok? ==> r.value.BasicLit? && BasicOk(r.value.kind, r.value.text))
  {
    if p.Ok? {
      assert ("-" + p.value.text)[1..] == p.value.text;
    }
  }

  lemma SortHasTheSame(fields: seq<ObjectField>, constOnly: bool)
    requires forall f :: f in fields ==> LiteralOk(f.value, constOnly)
    ensures forall f :: f in SortFields(fields) ==> LiteralOk(f.value, constOnly)
  {
    hide LiteralOk, SortFields;
    SortIsSorted(fields);
    forall f | f in SortFields(fields)
      ensures LiteralOk(f.value, constOnly)
    {
      assert f in multiset(SortFields(fields));
    }
  }

  lemma {:induction false} EntriesAreOk(ts: seq<Token>, constOnly: bool)
    requires TokensOk(ts)
    ensures (var r := ParseEntries(ts, constOnly);
             r.Ok? ==> (forall e :: e in r.value ==> LiteralOk(e, constOnly)) && TokensOk(r.rest))
    decreases |ts|, 1
  {
    hide TokensOk, ParseLiteral, LiteralOk;
    if Sees(ts, ']') {
      RestOk(ts, 1);
    } else {
      LiteralIsOk(ts, constOnly);
      var lit := ParseLiteral(ts, constOnly);
      if lit.Ok? {
        EntriesAreOk(lit.rest, constOnly);
      }
    }
  }

  lemma ObjectFieldIsOk(ts: seq<Token>, constOnly: bool)
    requires TokensOk(ts)
    ensures (var r := ParseObjectField(ts, constOnly);
             r.Ok? ==> LiteralOk(r.value.value, constOnly) && TokensOk(r.rest))
    decreases |ts|, 1
  {
    hide TokensOk, ParseLiteral, LiteralOk, ParseName, Expect;
    NameOk(ts);
    var name := ParseName(ts);
    if name.Ok? {
      ExpectOk(name.rest, ':');
      var colon := Expect(name.rest, ':');
      if colon.Ok? {
        LiteralIsOk(colon.rest, constOnly);
      }
    }
  }

  lemma {:induction false} FieldsAreOk(ts: seq<Token>, constOnly: bool)
    requires TokensOk(ts)
    ensures (var r := ParseFields(ts, constOnly);
             r.Ok? ==> (forall f :: f in r.value ==> LiteralOk(f.value, constOnly)) && TokensOk(r.rest))
    decreases |ts|, 2
  {
    hide TokensOk, ParseObjectField, LiteralOk;
    if Sees(ts, '}') {
      RestOk(ts, 1);
    } else {
      ObjectFieldIsOk(ts, constOnly);
      var f := ParseObjectField(ts, constOnly);
      if f.Ok? {
        FieldsAreOk(f.rest, constOnly);
      }
    }
  }

  // ----- arguments and directives -----

  lemma ArgumentIsOk(ts: seq<Token>)
    requires TokensOk(ts)
    ensures (var r := ParseArgument(ts); r.Ok? ==> LiteralOk(r.value.value, false) && TokensOk(r.rest))
  {
    hide TokensOk, ParseLiteral, LiteralOk, ParseName, Expect;
    NameOk(ts);
    var name := ParseName(ts);
    if name.Ok? {
      ExpectOk(name.rest, ':');
      var colon := Expect(name.rest, ':');
      if colon.Ok? {
        LiteralIsOk(colon.rest, false);
      }
    }
  }

  lemma {:induction false} ArgsAreOk(ts: seq<Token>)
    requires TokensOk(ts)
    ensures (var r := ParseArgs(ts); r.Ok? ==> ArgsOk(r.value) && TokensOk(r.rest))
    decreases |ts|
  {
    hide TokensOk, ParseArgument, LiteralOk;
    if Sees(ts, ')') {
      RestOk(ts, 1);
    } else {
      ArgumentIsOk(ts);
      var arg := ParseArgument(ts);
      if arg.Ok? {
        ArgsAreOk(arg.rest);
      }
    }
  }

  lemma OptionalArgumentsAreOk(ts: seq<Token>)
    requires TokensOk(ts)
    ensures (var r := ParseOptionalArguments(ts); r.Ok? ==> ArgsOk(r.value) && TokensOk(r.rest))
  {
    hide TokensOk, ParseArgs;
    if Sees(ts, '(') {
      RestOk(ts, 1);
      ArgsAreOk(ts[1..]);
    }
  }

  lemma DirectiveIsOk(ts: seq<Token>)
    requires TokensOk(ts)
    ensures (var r := ParseDirective(ts); r.Ok? ==> ArgsOk(r.value.args) && TokensOk(r.rest))
  {
    hide TokensOk, ParseOptionalArguments, ParseName, ArgsOk;
    NameOk(ts);
    if ParseName(ts).Ok? {
      OptionalArgumentsAreOk(ParseName(ts).rest);
    }
  }

  lemma {:induction false} DirectivesAreOk(ts: seq<Token>)
    requires TokensOk(ts)
    ensures (var r := ParseDirectives(ts); r.Ok? ==> DirectivesOk(r.value) && TokensOk(r.rest))
    decreases |ts|
  {
    hide TokensOk, ParseDirective, ArgsOk;
    if Sees(ts, '@') {
      RestOk(ts, 1);
      DirectiveIsOk(ts[1..]);
      var d := ParseDirective(ts[1..]);
      if d.Ok? {
        DirectivesAreOk(d.rest);
      }
    }
  }

  // ----- types and variables -----

  lemma {:induction false} TypeIsOk(ts: seq<Token>)
    requires TokensOk(ts)
    ensures (var r := ParseType(ts); r.Ok? ==> TypeOk(r.value) && TokensOk(r.rest))
    decreases |ts|, 1
  {
    hide TokensOk, ParseNullType;
    NullTypeIsOk(ts);
    var t := ParseNullType(ts);
    if t.Ok? && Sees(t.rest, '!') {
      RestOk(t.rest, 1);
    }
  }

  lemma {:induction false} NullTypeIsOk(ts: seq<Token>)
    requires TokensOk(ts)
    ensures (var r := ParseNullType(ts); r.Ok? ==> TypeOk(r.value) && !r.value.NonNullOf? && TokensOk(r.rest))
    decreases |ts|, 0
  {
    hide TokensOk, ParseType, ParseName, Expect;
    if Sees(ts, '[') {
      RestOk(ts, 1);
      TypeIsOk(ts[1..]);
      var of := ParseType(ts[1..]);
      if of.Ok? {
        ExpectOk(of.rest, ']');
      }
    } else {
      NameOk(ts);
    }
  }

  lemma DefaultIsOk(ts: seq<Token>)
    requires TokensOk(ts)
    ensures (var r := ParseDefault(ts);
             r.Ok? ==> (r.value.Some? ==> LiteralOk(r.value.value, true)) && TokensOk(r.rest))
  {
    hide TokensOk, ParseLiteral, LiteralOk;
    if Sees(ts, '=') {
      RestOk(ts, 1);
      LiteralIsOk(ts[1..], true);
    }
  }

  lemma InputValueIsOk(ts: seq<Token>)
    requires TokensOk(ts)
    ensures (var r := ParseInputValue(ts);
             r.Ok? ==> TypeOk(r.value.typ) && (r.value.default.Some? ==> LiteralOk(r.value.default.value, true))
                       && DirectivesOk(r.value.directives) && TokensOk(r.rest))
  {
    SkippedOk(ts);
    hide TokensOk, ParseName, Expect, ParseType, ParseDefault, ParseDirectives, LiteralOk, DirectivesOk, TypeOk,
         SkipDescription;
    NameOk(SkipDescription(ts));
    var name := ParseName(SkipDescription(ts));
    if name.Ok? {
      ExpectOk(name.rest, ':');
      var colon := Expect(name.rest, ':');
      if colon.Ok? {
        TypeIsOk(colon.rest);
        var typ := ParseType(colon.rest);
        if typ.Ok? {
          DefaultIsOk(typ.rest);
          var default := ParseDefault(typ.rest);
          if default.Ok? {
            DirectivesAreOk(default.rest);
          }
        }
      }
    }
  }

  lemma SkippedOk(ts: seq<Token>)
    requires TokensOk(ts)
    ensures TokensOk(SkipDescription(ts))
  {
    if ts != [] {
      RestOk(ts, 1);
    }
  }

  lemma VariableIsOk(ts: seq<Token>)
    requires TokensOk(ts)
    ensures (var r := ParseVariable(ts); r.Ok? ==> VariableOk(r.value) && TokensOk(r.rest))
  {
    hide TokensOk, ParseInputValue, Expect, LiteralOk, DirectivesOk, TypeOk;
    ExpectOk(ts, '$');
    var dollar := Expect(ts, '$');
    if dollar.Ok? {
      InputValueIsOk(dollar.rest);
    }
  }

  lemma {:induction false} VarsAreOk(ts: seq<Token>)
    requires TokensOk(ts)
    ensures (var r := ParseVars(ts); r.Ok? ==> (forall v :: v in r.value ==> VariableOk(v)) && TokensOk(r.rest))
    decreases |ts|
  {
    hide TokensOk, ParseVariable, VariableOk;
    if Sees(ts, ')') {
      RestOk(ts, 1);
    } else {
      VariableIsOk(ts);
      var v := ParseVariable(ts);
      if v.Ok? {
        VarsAreOk(v.rest);
      }
    }
  }

  lemma OptionalVarsAreOk(ts: seq<Token>)
    requires TokensOk(ts)
    ensures (var r := ParseOptionalVars(ts); r.Ok? ==> (forall v :: v in r.value ==> VariableOk(v)) && TokensOk(r.rest))
  {
    hide TokensOk, ParseVars, VariableOk;
    if Sees(ts, '(') {
      RestOk(ts, 1);
      VarsAreOk(ts[1..]);
    }
  }

  // ----- selections -----

  lemma {:induction false} SelectionSetIsOk(ts: seq<Token>)
    requires TokensOk(ts)
    ensures (var r := ParseSelectionSet(ts); r.Ok? ==> SelectionsOk(r.value) && TokensOk(r.rest))
    decreases |ts|, 0
  {
    hide TokensOk, ParseSelections, SelectionsOk;
    if Sees(ts, '{') {
      RestOk(ts, 1);
      SelectionsAreOk(ts[1..]);
    }
  }

  lemma {:induction false} SelectionsAreOk(ts: seq<Token>)
    requires TokensOk(ts)
    ensures (var r := ParseSelections(ts); r.Ok? ==> SelectionsOk(r.value) && TokensOk(r.rest))
    decreases |ts|, 4
  {
    hide TokensOk, ParseSelection, SelectionOk;
    if Sees(ts, '}') {
      RestOk(ts, 1);
    } else {
      SelectionIsOk(ts);
      var s := ParseSelection(ts);
      if s.Ok? {
        SelectionsAreOk(s.rest);
      }
    }
  }

  lemma SelectionIsOk(ts: seq<Token>)
    requires TokensOk(ts)
    ensures (var r := ParseSelection(ts); r.Ok? ==> SelectionOk(r.value) && TokensOk(r.rest))
    decreases |ts|, 3
  {
    hide TokensOk, ParseSpread, ParseField, SelectionOk;
    if Sees(ts, '.') {
      SpreadIsOk(ts);
    } else {
      FieldIsOk(ts);
    }
  }

  lemma OptionalSetIsOk(ts: seq<Token>)
    requires TokensOk(ts)
    ensures (var r := ParseOptionalSelectionSet(ts); r.Ok? ==> SelectionsOk(r.value) && TokensOk(r.rest))
    decreases |ts|, 1
  {
    hide TokensOk, ParseSelectionSet;
    if Sees(ts, '{') {
      SelectionSetIsOk(ts);
    }
  }

  lemma FieldNameIsOk(ts: seq<Token>, alias: string)
    requires TokensOk(ts)
    ensures (var r := ParseFieldName(ts, alias); r.Ok? ==> TokensOk(r.rest))
  {
    hide TokensOk, ParseName;
    if Sees(ts, ':') {
      RestOk(ts, 1);
      NameOk(ts[1..]);
    }
  }

  lemma FieldIsOk(ts: seq<Token>)
    requires TokensOk(ts)
    ensures (var r := ParseField(ts); r.Ok? ==> SelectionOk(Field(r.value)) && TokensOk(r.rest))
    decreases |ts|, 2
  {
    hide TokensOk, ParseName, ParseFieldName, ParseOptionalArguments, ParseDirectives, ParseOptionalSelectionSet;
    hide ArgsOk, DirectivesOk, SelectionsOk;
    NameOk(ts);
    var alias := ParseName(ts);
    if alias.Ok? {
      FieldNameIsOk(alias.rest, alias.value);
      var name := ParseFieldName(alias.rest, alias.value);
      if name.Ok? {
        OptionalArgumentsAreOk(name.rest);
        var args := ParseOptionalArguments(name.rest);
        if args.Ok? {
          DirectivesAreOk(args.rest);
          var directives := ParseDirectives(args.rest);
          if directives.Ok? {
            OptionalSetIsOk(directives.rest);
          }
        }
      }
    }
  }

  lemma DotsAreOk(ts: seq<Token>)
    requires TokensOk(ts)
    ensures (var r := ParseDots(ts); r.Ok? ==> TokensOk(r.rest))
  {
    if |ts| >= 3 {
      RestOk(ts, 3);
    }
  }

  lemma SpreadIsOk(ts: seq<Token>)
    requires TokensOk(ts)
    ensures (var r := ParseSpread(ts); r.Ok? ==> SelectionOk(r.value) && TokensOk(r.rest))
    decreases |ts|, 2
  {
    hide TokensOk, ParseName, ParseDots, ParseDirectives, ParseSelectionSet;
    hide DirectivesOk, SelectionsOk;
    DotsAreOk(ts);
    var dots := ParseDots(ts);
    if dots.Ok? {
      if SeesName(dots.rest) {
        RestOk(dots.rest, 1);
        DirectivesAreOk(dots.rest[1..]);
        NameOk(dots.rest[1..]);
      }
      var on := if SeesName(dots.rest) then ParseName(dots.rest[1..]) else Ok("", dots.rest);
      if on.Ok? {
        DirectivesAreOk(on.rest);
        if ParseDirectives(on.rest).Ok? {
          SelectionSetIsOk(ParseDirectives(on.rest).rest);
        }
      }
    }
  }

  // ----- documents -----

  lemma OperationIsOk(ts: seq<Token>, op: OperationType)
    requires TokensOk(ts)
    ensures (var r := ParseOperation(ts, op); r.Ok? ==> OperationOk(r.value) && TokensOk(r.rest))
  {
    hide TokensOk, ParseName, ParseDirectives, ParseOptionalVars, ParseSelectionSet;
    hide DirectivesOk, VariableOk, SelectionsOk;
    NameOk(ts);
    var name := if SeesName(ts) then ParseName(ts) else Ok("", ts);
    if name.Ok? {
      DirectivesAreOk(name.rest);
      var directives := ParseDirectives(name.rest);
      if directives.Ok? {
        OptionalVarsAreOk(directives.rest);
        var vars := ParseOptionalVars(directives.rest);
        if vars.Ok? {
          SelectionSetIsOk(vars.rest);
        }
      }
    }
  }

  lemma FragmentIsOk(ts: seq<Token>)
    requires TokensOk(ts)
    ensures (var r := ParseFragment(ts); r.Ok? ==> FragmentOk(r.value) && TokensOk(r.rest))
  {
    hide TokensOk, ParseName, ParseDirectives, ParseSelectionSet, DirectivesOk, SelectionsOk;
    NameOk(ts);
    var name := ParseName(ts);
    if name.Ok? && SeesName(name.rest) {
      RestOk(name.rest, 1);
      NameOk(name.rest[1..]);
      var typ := ParseName(name.rest[1..]);
      if typ.Ok? {
        DirectivesAreOk(typ.rest);
        if ParseDirectives(typ.rest).Ok? {
          SelectionSetIsOk(ParseDirectives(typ.rest).rest);
        }
      }
    }
  }

  ghost predicate DefinitionOk(d: Definition) {
    match d
    case Op(op) => OperationOk(op)
    case Frag(f) => FragmentOk(f)
  }

  lemma DefinitionIsOk(ts: seq<Token>)
    requires TokensOk(ts)
    ensures (var r := ParseDefinition(ts); r.Ok? ==> DefinitionOk(r.value) && TokensOk(r.rest))
  {
    hide TokensOk, ParseOperation, ParseFragment, ParseSelectionSet, SelectionsOk, FragmentOk;
    if Sees(ts, '{') {
      SelectionSetIsOk(ts);
    } else if SeesName(ts) {
      RestOk(ts, 1);
      OperationIsOk(ts[1..], QueryOp);
      OperationIsOk(ts[1..], MutationOp);
      OperationIsOk(ts[1..], SubscriptionOp);
      FragmentIsOk(ts[1..]);
    }
  }

  lemma {:induction false} DocumentIsOk(ts: seq<Token>, doc: Document)
    requires TokensOk(ts) && DocumentOk(doc)
    ensures (var r := ParseDocument(ts, doc); r.Some? ==> DocumentOk(r.value))
    decreases |ts|
  {
    hide TokensOk, ParseDefinition, OperationOk, FragmentOk;
    if ts != [] {
      DefinitionIsOk(ts);
      var d := ParseDefinition(ts);
      if d.Ok? {
        DocumentIsOk(d.rest, With(doc, d.value));
      }
    }
  }

  /** Whatever tokens the parser accepts, the tokens printed for the document are parsed as it exactly if it is
      printable. */
  lemma ParsedComesBackIff(ts: seq<Token>)
    requires TokensOk(ts) && Parse(ts).Some?
    ensures Parse(Print(Parse(ts).value)) == Parse(ts) <==> Printable(Parse(ts).value)
  {
    hide TokensOk, ParseDocument, OperationOk, FragmentOk, Printable;
    DocumentIsOk(ts, Document([], []));
    ComesBackIffPrintable(Parse(ts).value);
  }
}
