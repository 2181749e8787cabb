/**
 Where printing loses something: reading the printed form fails, or gives another
 document.
 */
module Unprintable {
  import opened Wrappers
  import opened Query
  import opened Syntax
  import opened Printing
  import opened RoundTrip

  // ----- what differs -----

  /** A selection without its arguments and directives. */
  function Shape(s: Selection): Selection
    decreases s, 0
  {
    match s
    case Field(f) => Field(FieldSelection(f.alias, f.name, [], [], Shapes(f.selections), None))
    case Inline(on, _, sels) => Inline(on, [], Shapes(sels))
    case Spread(name, _) => Spread(name, [])
  }

  function Shapes(sels: seq<Selection>): seq<Selection>
    decreases sels, 1
  {
    if sels == [] then [] else [Shape(sels[0])] + Shapes(sels[1..])
  }

  function VarShapes(vars: seq<InputValue>): seq<InputValue> {
    if vars == [] then [] else [vars[0].(default := None)] + VarShapes(vars[1..])
  }

  /** An operation without any literal. */
  function OperationShape(op: Operation): Operation {
    Operation(op.op, op.name, VarShapes(op.vars), [], Shapes(op.selections))
  }

  function FragmentShape(f: Fragment): Fragment {
    Fragment(f.name, f.on, [], Shapes(f.selections))
  }

  /** `all` starts with operations of these shapes. */
  ghost predicate StartsLike(all: seq<Operation>, ops: seq<Operation>) {
    |ops| <= |all| && forall i | 0 <= i < |ops| :: OperationShape(all[i]) == OperationShape(ops[i])
  }

  ghost predicate FragmentsStartLike(all: seq<Fragment>, fs: seq<Fragment>) {
    |fs| <= |all| && forall i | 0 <= i < |fs| :: FragmentShape(all[i]) == FragmentShape(fs[i])
  }

  // ----- selections -----

  /** After a selection comes another, or the end of the selection set. */
  ghost predicate AfterSelection(rest: seq<Token>) {
    Stops(rest, FIELD_END) && (SeesName(rest) ==> rest[0].text != "")
  }

  lemma NextSelection(sels: seq<Selection>, rest: seq<Token>)
    requires SelectionsOk(sels) && AfterSelection(rest)
    ensures AfterSelection(PrintSelections(sels) + rest)
  {
    hide SelectionsOk, PrintSelection;
    SelectionsStop(sels, rest);
    if sels == [] {
      assert [] + rest == rest;
    } else {
      var more := PrintSelections(sels[1..]) + rest;
      assert PrintSelections(sels) + rest == PrintSelection(sels[0]) + more;
      FirstOfSelection(sels, more);
    }
  }

  lemma FirstOfSelection(sels: seq<Selection>, more: seq<Token>)
    requires SelectionsOk(sels) && sels != []
    ensures (var ts := PrintSelection(sels[0]) + more; SeesName(ts) ==> ts[0].text != "")
  {
    assert SelectionOk(sels[0]);
  }

  lemma {:induction false} SelectionDiffers(s: Selection, rest: seq<Token>)
    requires SelectionOk(s) && !SelectionPrintable(s) && AfterSelection(rest)
    ensures (var r := ParseSelection(PrintSelection(s) + rest); r.Ok? ==> Shape(r.value) != Shape(s))
    decreases s, 2
  {
    hide ParseField, ParseSpread, SelectionOk, SelectionPrintable, PrintArguments, PrintDirectives, PrintSelectionSet;
    match s
    case Field(f) => FieldDiffers(s, rest);
    case Spread(_, _) => SpreadIsPrintable(s);
    case Inline(on, _, sels) =>
      if on == "" {
        UntypedDiffers(s, rest);
      } else if sels == [] {
        EmptyInlineFails(s, rest);
      } else {
        InlineDiffers(s, rest);
      }
  }

  lemma SpreadIsPrintable(s: Selection)
    requires s.Spread?
    ensures SelectionPrintable(s)
  {
  }

  lemma FieldDiffers(s: Selection, rest: seq<Token>)
    requires s.Field? && SelectionOk(s) && !SelectionPrintable(s) && AfterSelection(rest)
    ensures (var r := ParseField(PrintSelection(s) + rest); r.Ok? ==> Shape(Field(r.value)) != Shape(s))
    decreases s, 1
  {
    hide ParseOptionalArguments, PrintArguments, ParseDirectives, PrintDirectives, PrintSelectionSet;
    hide ParseName, ParseFieldName, ParseSelectionSet;
    hide ArgsOk, DirectivesOk, Stops, EndsOpen, PrintSelection;
    var f := s.field;
    PartsStart(f.args, f.directives, f.selections);
    var three := PrintSelectionSet(f.selections) + rest;
    var two := PrintDirectives(f.directives) + three;
    var one := PrintArguments(f.args) + two;
    var named := if f.name != f.alias then [Punct(':'), Name(f.name)] else [];
    StopsFewer(rest, FIELD_END, {':', '(', '@'});
    PartStops(PrintSelectionSet(f.selections), '{', rest, {':', '(', '@'});
    StopsFewer(three, {':', '(', '@'}, {':', '('});
    PartStops(PrintDirectives(f.directives), '@', three, {':', '('});
    StopsFewer(two, {':', '('}, {':'});
    PartStops(PrintArguments(f.args), '(', two, {':'});
    FieldPrinted(s, rest);
    FirstName(f.alias, named + one);
    FieldNameBack(f.alias, f.name, one);
    ArgumentsBack(f.args, two);
    DirectivesBack(f.directives, three);
    SelectionSetDiffers(f.selections, rest);
  }

  /** The word "on" is printed without a type: it is followed by no name, or by one that is not the type. */
  lemma UntypedDiffers(s: Selection, rest: seq<Token>)
    requires s.Inline? && s.on == "" && AfterSelection(rest)
    ensures (var r := ParseSelection(PrintSelection(s) + rest); r.Ok? ==> Shape(r.value) != Shape(s))
  {
    hide ParseDirectives, PrintDirectives, ParseSelectionSet, PrintSelectionSet, PrintSelection, AfterSelection;
    var one := PrintDirectives(s.directives) + (PrintSelectionSet(s.selections) + rest);
    UntypedPrinted(s, rest);
    var ts := PrintSelection(s) + rest;
    assert ts[3..][1..] == one;
    NoTypeFollows(s, rest);
  }

  lemma UntypedPrinted(s: Selection, rest: seq<Token>)
    requires s.Inline? && s.on == ""
    ensures (var ts := PrintSelection(s) + rest;
             |ts| > 3 && ts[0] == ts[1] == ts[2] == Punct('.')
             && ts[3..] == [Name("on")] + (PrintDirectives(s.directives) + (PrintSelectionSet(s.selections) + rest)))
  {
    hide PrintDirectives, PrintSelectionSet;
  }

  lemma NoTypeFollows(s: Selection, rest: seq<Token>)
    requires s.Inline? && AfterSelection(rest)
    ensures (var one := PrintDirectives(s.directives) + (PrintSelectionSet(s.selections) + rest);
             SeesName(one) ==> one[0].text != "")
  {
    hide PrintDirectives, PrintSelectionSet;
    PartsStart([], s.directives, s.selections);
    var two := PrintSelectionSet(s.selections) + rest;
    if PrintDirectives(s.directives) == [] && PrintSelectionSet(s.selections) == [] {
      assert PrintDirectives(s.directives) + two == rest;
    }
  }

  lemma EmptyInlineFails(s: Selection, rest: seq<Token>)
    requires s.Inline? && s.on != "" && s.selections == [] && SelectionOk(s) && AfterSelection(rest)
    ensures ParseSelection(PrintSelection(s) + rest).Err?
  {
    hide ParseDirectives, PrintDirectives, DirectivesOk, ParseSelection, PrintSelection;
    InlinePrinted(s, rest);
    assert PrintSelectionSet(s.selections) + rest == rest;
    StopsFewer(rest, FIELD_END, {'{', '@', '('});
    assert '{' in {'{', '@', '('};
    DirectivesBack(s.directives, rest);
    InlineSteps(s.on, PrintDirectives(s.directives) + rest, s.directives, rest);
  }

  lemma InlineDiffers(s: Selection, rest: seq<Token>)
    requires s.Inline? && s.on != "" && s.selections != [] && SelectionOk(s) && !SelectionPrintable(s)
    ensures (var r := ParseSelection(PrintSelection(s) + rest); r.Ok? ==> Shape(r.value) != Shape(s))
    decreases s, 1
  {
    hide ParseDirectives, PrintDirectives, ParseSelectionSet, PrintSelectionSet, DirectivesOk, ParseSelection,
         PrintSelection;
    var two := PrintSelectionSet(s.selections) + rest;
    InlinePrinted(s, rest);
    SetStarts(s.selections, rest);
    DirectivesBack(s.directives, two);
    SelectionSetDiffers(s.selections, rest);
    InlineSteps(s.on, PrintDirectives(s.directives) + two, s.directives, two);
  }

  lemma SelectionSetDiffers(sels: seq<Selection>, rest: seq<Token>)
    requires SelectionsOk(sels) && !SelectionsPrintable(sels)
    ensures PrintSelectionSet(sels) != [] && PrintSelectionSet(sels)[0] == Punct('{')
    ensures (var r := ParseSelectionSet(PrintSelectionSet(sels) + rest); r.Ok? ==> Shapes(r.value) != Shapes(sels))
    decreases sels, 3
  {
    hide ParseSelections, PrintSelections, SelectionsOk;
    assert sels != [];
    assert (PrintSelectionSet(sels) + rest)[1..] == PrintSelections(sels) + ([Punct('}')] + rest);
    SelectionsDiffer(sels, rest);
  }

  lemma {:induction false} SelectionsDiffer(sels: seq<Selection>, rest: seq<Token>)
    requires SelectionsOk(sels) && !SelectionsPrintable(sels)
    ensures (var r := ParseSelections(PrintSelections(sels) + ([Punct('}')] + rest));
             r.Ok? ==> Shapes(r.value) != Shapes(sels))
    decreases sels, 2
  {
    hide ParseSelection, PrintSelection, SelectionOk, SelectionPrintable;
    var tail := [Punct('}')] + rest;
    assert sels != [];
    var more := PrintSelections(sels[1..]) + tail;
    assert PrintSelections(sels) + tail == PrintSelection(sels[0]) + more;
    SelectionStarts(sels[0]);
    SeesFirst(PrintSelection(sels[0]), more, '}');
    NextSelection(sels[1..], tail);
    assert sels == [sels[0]] + sels[1..];
    if SelectionPrintable(sels[0]) {
      SelectionBack(sels[0], more);
      SelectionsDiffer(sels[1..], rest);
    } else {
      SelectionDiffers(sels[0], more);
    }
    var s := ParseSelection(PrintSelections(sels) + tail);
    if s.Ok? && ParseSelections(s.rest).Ok? {
      OneDiffers(s.value, ParseSelections(s.rest).value, sels);
    }
  }

  lemma OneDiffers(s: Selection, rest: seq<Selection>, sels: seq<Selection>)
    requires sels != [] && (Shape(s) != Shape(sels[0]) || Shapes(rest) != Shapes(sels[1..]))
    ensures Shapes([s] + rest) != Shapes(sels)
  {
    hide Shape;
    assert ([s] + rest)[1..] == rest;
    assert Shapes([s] + rest)[0] == Shape(s) && Shapes([s] + rest)[1..] == Shapes(rest);
    assert Shapes(sels)[0] == Shape(sels[0]) && Shapes(sels)[1..] == Shapes(sels[1..]);
  }

  // ----- operations -----

  /** A definition is followed by a name or by nothing. */
  ghost predicate AfterDefinition(rest: seq<Token>) {
    rest == [] || (SeesName(rest) && rest[0].text != "")
  }

  lemma {:induction false} OpenDirectivesFail(ds: seq<Directive>, rest: seq<Token>)
    requires DirectivesOk(ds) && EndsOpen(ds) && |rest| > 1 && rest[0] == Punct('(') && rest[1] == Punct('$')
    ensures ParseDirectives(PrintDirectives(ds) + rest).Err?
  {
    hide ArgsOk, ParseOptionalArguments, PrintArguments, ParseDirective;
    var more := PrintDirectives(ds[1..]) + rest;
    assert PrintDirectives(ds) + rest == PrintDirective(ds[0]) + more;
    if |ds| == 1 {
      OpenDirectiveFails(ds[0], rest);
      assert more == rest;
    } else {
      PartsStart([], ds[1..], []);
      SeesFirst(PrintDirectives(ds[1..]), rest, '(');
      DirectiveBack(ds[0], more);
      OpenDirectivesFail(ds[1..], rest);
    }
  }

  lemma OpenDirectiveFails(d: Directive, rest: seq<Token>)
    requires d.args == [] && |rest| > 1 && rest[0] == Punct('(') && rest[1] == Punct('$')
    ensures ParseDirective((PrintDirective(d) + rest)[1..]).Err?
  {
    hide ParseOptionalArguments;
    var ts := (PrintDirective(d) + rest)[1..];
    assert ts[1..] == rest;
    VariablesAreNoArguments(rest);
  }

  lemma VariablesAreNoArguments(rest: seq<Token>)
    requires |rest| > 1 && rest[0] == Punct('(') && rest[1] == Punct('$')
    ensures ParseOptionalArguments(rest).Err?
  {
  }

  lemma {:induction false} VarsDiffer(vars: seq<InputValue>, rest: seq<Token>)
    requires (forall v :: v in vars ==> VariableOk(v)) && exists v :: v in vars && v.directives != []
    ensures (var r := ParseVars(PrintVars(vars) + ([Punct(')')] + rest));
             r.Ok? ==> VarShapes(r.value) != VarShapes(vars))
  {
    hide ParseVariable, VariableOk, PrintType, PrintDefault;
    var tail := [Punct(')')] + rest;
    assert vars == [vars[0]] + vars[1..];
    var more := PrintVars(vars[1..]) + tail;
    assert PrintVars(vars) + tail == PrintVariable(vars[0]) + more;
    SeesFirst(PrintVariable(vars[0]), more, ')');
    VarsStart(vars[1..], tail);
    var bare := vars[0].(directives := []);
    assert PrintVariable(bare) == PrintVariable(vars[0]);
    BareIsOk(vars[0]);
    VariableBack(bare, more);
    if vars[0].directives == [] {
      VarsDiffer(vars[1..], rest);
    }
    if ParseVars(more).Ok? {
      OneVarDiffers(bare, ParseVars(more).value, vars);
    }
  }

  lemma OneVarDiffers(v: InputValue, rest: seq<InputValue>, vars: seq<InputValue>)
    requires vars != [] && (v.(default := None) != vars[0].(default := None) || VarShapes(rest) != VarShapes(vars[1..]))
    ensures VarShapes([v] + rest) != VarShapes(vars)
  {
    assert ([v] + rest)[1..] == rest;
    assert VarShapes([v] + rest)[1..] == VarShapes(rest);
    assert VarShapes(vars)[1..] == VarShapes(vars[1..]);
  }

  lemma BareIsOk(v: InputValue)
    requires VariableOk(v)
    ensures VariableOk(v.(directives := []))
  {
  }

  lemma NameOfOperation(op: Operation, one: seq<Token>)
    requires op.name != "" || !SeesName(one)
    ensures (var ts := PrintOptionalName(op.name) + one;
             (if SeesName(ts) then ParseName(ts) else Ok("", ts)) == Ok(op.name, one))
  {
    if op.name == "" {
      NameBack(op.name, one);
    } else {
      assert ([Name(op.name)] + one)[1..] == one;
    }
  }

  /** Another name was read than the operation has. */
  lemma OtherName(op: Operation, ts: seq<Token>)
    requires SeesName(ts) && ts[0].text != op.name
    ensures (var r := ParseDefinition([Name(OperationWord(op.op))] + ts);
             r.Ok? ==> r.value.Op? && OperationShape(r.value.op) != OperationShape(op))
  {
    hide ParseDirectives, ParseOptionalVars, ParseSelectionSet;
    assert ([Name(OperationWord(op.op))] + ts)[1..] == ts;
    OperationWords(op.op);
  }

  lemma NoDirectives(op: Operation, ts: seq<Token>, t1: seq<Token>)
    requires (if SeesName(ts) then ParseName(ts) else Ok("", ts)) == Ok(op.name, t1)
    requires ParseDirectives(t1).Err?
    ensures ParseDefinition([Name(OperationWord(op.op))] + ts).Err?
  {
    hide ParseDirectives, ParseOptionalVars, ParseSelectionSet;
    assert ([Name(OperationWord(op.op))] + ts)[1..] == ts;
    OperationWords(op.op);
  }

  lemma OperationDiffers(op: Operation, rest: seq<Token>)
    requires OperationOk(op) && !OperationPrintable(op) && AfterDefinition(rest)
    ensures (var r := ParseDefinition(PrintOperation(op) + rest);
             r.Ok? ==> r.value.Op? && OperationShape(r.value.op) != OperationShape(op))
  {
    hide ParseDirectives, PrintDirectives, ParseSelectionSet, PrintSelectionSet, ParseOptionalVars, PrintVariables,
         PrintOptionalName;
    hide DirectivesOk, VariableOk, SelectionsOk, SelectionsPrintable, EndsOpen, ParseDefinition, PrintOperation,
         AfterDefinition;
    hide Sees, SeesName, ParseName;
    var three := PrintSelectionSet(op.selections) + rest;
    var two := PrintVariables(op.vars) + three;
    var one := PrintDirectives(op.directives) + two;
    OperationPrinted(op, rest);
    PartsOfOperation(op, rest);
    if op.name == "" && SeesName(one) {
      OtherName(op, PrintOptionalName(op.name) + one);
    } else {
      NameOfOperation(op, one);
      if op.vars != [] && EndsOpen(op.directives) {
        VariablesStartTwo(op.vars, three);
        OpenDirectivesFail(op.directives, two);
        NoDirectives(op, PrintOptionalName(op.name) + one, one);
      } else {
        DirectivesBack(op.directives, two);
        OperationSteps(op, PrintOptionalName(op.name) + one, one, two);
        RestOfOperationDiffers(op, rest);
      }
    }
  }

  /** What comes after the name of an operation; if it is a name, nothing is left of the operation. */
  lemma PartsOfOperation(op: Operation, rest: seq<Token>)
    requires AfterDefinition(rest)
    ensures (var three := PrintSelectionSet(op.selections) + rest;
             var two := PrintVariables(op.vars) + three;
             var one := PrintDirectives(op.directives) + two;
             && !Sees(three, '(') && !Sees(two, '@') && (op.vars == [] ==> two == three)
             && (SeesName(one) ==> one[0].text != "")
             && (op.name == "" ==> PrintOptionalName(op.name) + one == one))
  {
    hide PrintDirectives, PrintSelectionSet, PrintVariables;
    PartsStart([], op.directives, op.selections);
    VariablesStart(op.vars);
    var three := PrintSelectionSet(op.selections) + rest;
    var two := PrintVariables(op.vars) + three;
    var one := PrintDirectives(op.directives) + two;
    NothingBefore(PrintSelectionSet(op.selections), rest);
    NothingBefore(PrintVariables(op.vars), three);
    NothingBefore(PrintDirectives(op.directives), two);
    NothingBefore(PrintOptionalName(op.name), one);
  }

  lemma NothingBefore(part: seq<Token>, rest: seq<Token>)
    ensures part == [] ==> part + rest == rest
    ensures part != [] ==> part + rest != [] && (part + rest)[0] == part[0]
  {
  }

  lemma VariablesStartTwo(vars: seq<InputValue>, rest: seq<Token>)
    requires vars != [] && VariableOk(vars[0])
    ensures (var ts := PrintVariables(vars) + rest; |ts| > 1 && ts[0] == Punct('(') && ts[1] == Punct('$'))
  {
  }

  lemma RestOfOperationDiffers(op: Operation, rest: seq<Token>)
    requires OperationOk(op) && !OperationPrintable(op) && AfterDefinition(rest) &&
             (op.vars == [] || !EndsOpen(op.directives))
    ensures (var vars := ParseOptionalVars(PrintVariables(op.vars) + (PrintSelectionSet(op.selections) + rest));
             vars.Err? || VarShapes(vars.value) != VarShapes(op.vars) ||
             (var sels := ParseSelectionSet(vars.rest); sels.Err? || Shapes(sels.value) != Shapes(op.selections)))
  {
    hide ParseVars, PrintVars, ParseSelectionSet, PrintSelectionSet, DirectivesOk, VariableOk, SelectionsOk,
         SelectionsPrintable, EndsOpen;
    PartsStart([], [], op.selections);
    var three := PrintSelectionSet(op.selections) + rest;
    if exists v :: v in op.vars && v.directives != [] {
      VarsDiffer(op.vars, three);
      assert (PrintVariables(op.vars) + three)[1..] == PrintVars(op.vars) + ([Punct(')')] + three);
    } else {
      VariablesBack(op.vars, three);
      if op.selections == [] {
        EmptySetFails(rest);
      } else {
        SelectionSetDiffers(op.selections, rest);
      }
    }
  }

  lemma EmptySetFails(rest: seq<Token>)
    requires AfterDefinition(rest)
    ensures ParseSelectionSet(PrintSelectionSet([]) + rest).Err?
    ensures PrintSelectionSet([]) + rest == rest && !Sees(rest, '@') && !Sees(rest, '(')
  {
    assert [] + rest == rest;
  }

  // ----- fragments -----

  lemma FragmentDiffers(f: Fragment, rest: seq<Token>)
    requires FragmentOk(f) && !FragmentPrintable(f) && AfterDefinition(rest)
    ensures (var r := ParseDefinition(PrintFragment(f) + rest);
             r.Ok? ==> r.value.Frag? && FragmentShape(r.value.fragment) != FragmentShape(f))
  {
    hide ParseDirectives, PrintDirectives, ParseSelectionSet, PrintSelectionSet, DirectivesOk, SelectionsOk,
         SelectionsPrintable;
    hide ParseDefinition, PrintFragment;
    var two := PrintSelectionSet(f.selections) + rest;
    var one := PrintDirectives(f.directives) + two;
    FragmentPrinted(f, rest);
    if f.selections == [] {
      EmptySetFails(rest);
    } else {
      SetStarts(f.selections, rest);
      SelectionSetDiffers(f.selections, rest);
    }
    DirectivesBack(f.directives, two);
    FragmentSteps(f, one, two);
  }

  // ----- documents -----

  /** What was read is kept. */
  lemma {:induction false} DocumentGrows(ts: seq<Token>, doc: Document)
    ensures (var r := ParseDocument(ts, doc);
             r.Some? ==> doc.operations <= r.value.operations && doc.fragments <= r.value.fragments)
    decreases |ts|
  {
    hide ParseDefinition;
    if ts != [] && ParseDefinition(ts).Ok? {
      DocumentGrows(ParseDefinition(ts).rest, With(doc, ParseDefinition(ts).value));
    }
  }

  lemma OperationsFollow(ops: seq<Operation>, rest: seq<Token>)
    requires AfterDefinition(rest)
    ensures AfterDefinition(PrintOperations(ops) + rest)
  {
    hide PrintOperation;
    if ops == [] {
      assert [] + rest == rest;
    } else {
      OperationIsNamed(ops[0]);
    }
  }

  lemma OperationIsNamed(op: Operation)
    ensures PrintOperation(op) != [] && SeesName(PrintOperation(op)) && PrintOperation(op)[0].text != ""
  {
    hide PrintDirectives, PrintVariables, PrintSelectionSet, PrintOptionalName;
  }

  lemma {:induction false} FragmentsDiffer(fs: seq<Fragment>, doc: Document)
    requires forall f :: f in fs ==> FragmentOk(f)
    requires exists f :: f in fs && !FragmentPrintable(f)
    ensures (var r := ParseDocument(PrintFragments(fs), doc);
             r.Some? ==> !FragmentsStartLike(r.value.fragments, doc.fragments + fs))
    decreases fs
  {
    hide ParseDefinition, PrintFragment, FragmentOk, FragmentPrintable, FragmentShape;
    var rest := PrintFragments(fs[1..]);
    FragmentStarts(fs[0]);
    if FragmentPrintable(fs[0]) {
      FragmentBack(fs[0], rest);
      var doc' := With(doc, Frag(fs[0]));
      FragmentsDiffer(fs[1..], doc');
      assert doc'.fragments + fs[1..] == doc.fragments + fs;
    } else {
      FragmentsAreNamed(fs[1..]);
      FragmentDiffers(fs[0], rest);
      var r := ParseDefinition(PrintFragments(fs));
      if r.Ok? {
        DocumentGrows(r.rest, With(doc, r.value));
        assert (doc.fragments + fs)[|doc.fragments|] == fs[0];
        assert (doc.fragments + [r.value.fragment])[|doc.fragments|] == r.value.fragment;
      }
    }
  }

  lemma FragmentsAreNamed(fs: seq<Fragment>)
    ensures AfterDefinition(PrintFragments(fs))
  {
  }

  lemma {:induction false} OperationsDiffer(ops: seq<Operation>, fs: seq<Fragment>, doc: Document)
    requires forall op :: op in ops ==> OperationOk(op)
    requires exists op :: op in ops && !OperationPrintable(op)
    ensures (var r := ParseDocument(PrintOperations(ops) + PrintFragments(fs), doc);
             r.Some? ==> !StartsLike(r.value.operations, doc.operations + ops))
    decreases ops
  {
    hide ParseDefinition, PrintOperation, OperationOk, OperationPrintable, PrintFragments, OperationShape;
    var rest := PrintFragments(fs);
    var more := PrintOperations(ops[1..]) + rest;
    assert PrintOperations(ops) + rest == PrintOperation(ops[0]) + more;
    OperationStarts(ops[0]);
    if OperationPrintable(ops[0]) {
      OperationBack(ops[0], more);
      var doc' := With(doc, Op(ops[0]));
      OperationsDiffer(ops[1..], fs, doc');
      assert doc'.operations + ops[1..] == doc.operations + ops;
    } else {
      FragmentsAreNamed(fs);
      OperationsFollow(ops[1..], rest);
      OperationDiffers(ops[0], more);
      var r := ParseDefinition(PrintOperation(ops[0]) + more);
      if r.Ok? {
        DocumentGrows(r.rest, With(doc, r.value));
        assert (doc.operations + ops)[|doc.operations|] == ops[0];
        assert (doc.operations + [r.value.op])[|doc.operations|] == r.value.op;
      }
    }
  }

  /** What is read from the printed form of a document that is not printable differs from it in more than literals. */
  lemma UnprintableDiffers(doc: Document)
    requires DocumentOk(doc) && !Printable(doc)
    ensures (var r := Parse(Print(doc));
             r.Some? ==> !(StartsLike(r.value.operations, doc.operations) &&
                           FragmentsStartLike(r.value.fragments, doc.fragments)))
  {
    hide PrintOperations, PrintFragments, ParseDocument, OperationOk, OperationPrintable, FragmentOk, FragmentPrintable;
    hide StartsLike, FragmentsStartLike;
    assert [] + doc.operations == doc.operations && [] + doc.fragments == doc.fragments;
    if exists op :: op in doc.operations && !OperationPrintable(op) {
      OperationsDiffer(doc.operations, doc.fragments, Document([], []));
    } else {
      OperationsBack(doc.operations, PrintFragments(doc.fragments), Document([], []));
      FragmentsDiffer(doc.fragments, Document(doc.operations, []));
    }
  }

  /** The tokens printed for a document that the parser can produce are parsed as it exactly if it is printable. */
  lemma ComesBackIffPrintable(doc: Document)
    requires DocumentOk(doc)
    ensures Parse(Print(doc)) == Some(doc) <==> Printable(doc)
  {
    hide PrintOperations, PrintFragments, ParseDocument, OperationOk, OperationPrintable, FragmentOk, FragmentPrintable;
    if Printable(doc) {
      PrintedComesBack(doc);
    } else {
      UnprintableDiffers(doc);
    }
  }
}
