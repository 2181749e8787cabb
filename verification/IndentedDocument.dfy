/**
 What indentation does to a document: a selection set is indented as text, and
 with it the literals that have line feeds in them.
 */
module IndentedDocument {
  import opened Wrappers
  import opened Query
  import opened Syntax
  import opened Printing
  import opened RoundTrip
  import opened Unprintable
  import opened Indentation
  import opened PrintedText

  // ----- literals, one level deeper -----

  function HangBasic(text: string): string {
    if text != "" && text[0] == '-' then "-" + HangText(text[1..]) else HangText(text)
  }

  function HangLiteral(lit: Literal): Literal {
    match lit
    case BasicLit(kind, text) => BasicLit(kind, HangBasic(text))
    case ListLit(entries) => ListLit(HangEntries(entries))
    case ObjectLit(fields) => ObjectLit(HangFields(fields))
    case NullLit => lit
    case Variable(_) => lit
  }

  function HangEntries(entries: seq<Literal>): seq<Literal> {
    if entries == [] then [] else [HangLiteral(entries[0])] + HangEntries(entries[1..])
  }

  function HangFields(fields: seq<ObjectField>): seq<ObjectField> {
    if fields == [] then []
    else [ObjectField(fields[0].name, HangLiteral(fields[0].value))] + HangFields(fields[1..])
  }

  function HangArgs(args: seq<Argument>): seq<Argument> {
    if args == [] then [] else [Argument(args[0].name, HangLiteral(args[0].value))] + HangArgs(args[1..])
  }

  function HangDirectives(ds: seq<Directive>): seq<Directive> {
    if ds == [] then [] else [Directive(ds[0].name, HangArgs(ds[0].args))] + HangDirectives(ds[1..])
  }

  function HangVariable(v: InputValue): InputValue {
    v.(default := if v.default.Some? then Some(HangLiteral(v.default.value)) else None)
  }

  function HangVars(vars: seq<InputValue>): seq<InputValue> {
    if vars == [] then [] else [HangVariable(vars[0])] + HangVars(vars[1..])
  }

  function HangSelection(s: Selection): Selection
    decreases s, 0
  {
    match s
    case Field(f) =>
      Field(f.(args := HangArgs(f.args), directives := HangDirectives(f.directives),
               selections := HangSelections(f.selections)))
    case Inline(on, directives, sels) => Inline(on, HangDirectives(directives), HangSelections(sels))
    case Spread(name, directives) => Spread(name, HangDirectives(directives))
  }

  function HangSelections(sels: seq<Selection>): seq<Selection>
    decreases sels, 1
  {
    if sels == [] then [] else [HangSelection(sels[0])] + HangSelections(sels[1..])
  }

  // ----- a document as it is laid out -----

  /** Selections are indented as deep as they are nested. */
  function LaidSelection(s: Selection): Selection
    decreases s, 0
  {
    match s
    case Field(f) => Field(f.(selections := LaidSelections(f.selections)))
    case Inline(on, directives, sels) => Inline(on, directives, LaidSelections(sels))
    case Spread(_, _) => s
  }

  function LaidSelections(sels: seq<Selection>): seq<Selection>
    decreases sels, 1
  {
    if sels == [] then [] else [HangSelection(LaidSelection(sels[0]))] + LaidSelections(sels[1..])
  }

  function LaidVars(vars: seq<InputValue>): seq<InputValue> {
    if SomeLine(VarParts(vars)) then HangVars(vars) else vars
  }

  function LaidOperation(op: Operation): Operation {
    op.(vars := LaidVars(op.vars), selections := LaidSelections(op.selections))
  }

  function LaidFragment(f: Fragment): Fragment {
    f.(selections := LaidSelections(f.selections))
  }

  function LaidOperations(ops: seq<Operation>): seq<Operation> {
    if ops == [] then [] else [LaidOperation(ops[0])] + LaidOperations(ops[1..])
  }

  function LaidFragments(fs: seq<Fragment>): seq<Fragment> {
    if fs == [] then [] else [LaidFragment(fs[0])] + LaidFragments(fs[1..])
  }

  /** The document with every literal as its text has it. */
  function Laid(doc: Document): Document {
    Document(LaidOperations(doc.operations), LaidFragments(doc.fragments))
  }

  // ----- its tokens -----

  /** Names have no line feeds. */
  ghost predicate NamesKept(ts: seq<Token>) {
    forall t :: t in ts && t.Lit? && t.kind == IdentLit ==> HangToken(t) == t
  }

  lemma HungJoined(a: seq<Token>, b: seq<Token>)
    ensures HangTokens(a + b) == HangTokens(a) + HangTokens(b)
    ensures NamesKept(a + b) <==> NamesKept(a) && NamesKept(b)
  {
    hide HangToken, HangTokens;
    HangTokensJoined(a, b);
    assert forall t :: t in a + b <==> t in a || t in b;
  }

  lemma HungThree(a: seq<Token>, b: seq<Token>, c: seq<Token>)
    ensures HangTokens(a + b + c) == HangTokens(a) + HangTokens(b) + HangTokens(c)
    ensures NamesKept(a + b + c) <==> NamesKept(a) && NamesKept(b) && NamesKept(c)
  {
    HungJoined(a, b);
    HungJoined(a + b, c);
  }

  lemma HungSign(c: char)
    ensures HangTokens([Punct(c)]) == [Punct(c)] && NamesKept([Punct(c)])
  {
  }

  lemma HungName(name: string)
    ensures NamesKept([Name(name)]) ==> HangTokens([Name(name)]) == [Name(name)]
  {
    assert [Name(name)][0] in [Name(name)];
  }

  lemma HungNothing()
    ensures HangTokens([]) == []
  {
  }

  /** Something in brackets. */
  lemma HungBrackets(open: char, ts: seq<Token>, close: char)
    ensures HangTokens([Punct(open)] + ts + [Punct(close)]) == [Punct(open)] + HangTokens(ts) + [Punct(close)]
    ensures NamesKept([Punct(open)] + ts + [Punct(close)]) <==> NamesKept(ts)
  {
    HungSign(open);
    HungSign(close);
    HungThree([Punct(open)], ts, [Punct(close)]);
  }

  lemma HungNamed(name: string, ts: seq<Token>)
    requires NamesKept([Name(name), Punct(':')] + ts)
    ensures HangTokens([Name(name), Punct(':')] + ts) == [Name(name), Punct(':')] + HangTokens(ts) && NamesKept(ts)
  {
    hide HangToken, HangTokens, NamesKept;
    HungThree([Name(name)], [Punct(':')], ts);
    assert [Name(name)] + [Punct(':')] == [Name(name), Punct(':')];
    HungName(name);
    HungSign(':');
  }

  lemma HangTextStarts(text: string)
    ensures HangText(text) == "" <==> text == ""
    ensures text != "" ==> HangText(text)[0] == text[0]
  {
    HangStarts(text);
    if EndsLine(text) {
      HangStarts(text[..|text| - 1]);
    }
  }

  lemma HungBasic(kind: LiteralKind, text: string)
    ensures PrintBasic(kind, HangBasic(text)) == HangTokens(PrintBasic(kind, text))
  {
    hide HangText;
    HangTextStarts(text);
    if text != "" && text[0] == '-' {
      assert ("-" + HangText(text[1..]))[1..] == HangText(text[1..]);
      assert PrintBasic(kind, text) == [Punct('-')] + [Lit(kind, text[1..])];
      HungJoined([Punct('-')], [Lit(kind, text[1..])]);
      HungSign('-');
      HungLit(kind, text[1..]);
    } else {
      HungLit(kind, text);
    }
  }

  lemma HungLit(kind: LiteralKind, text: string)
    ensures HangTokens([Lit(kind, text)]) == [Lit(kind, HangText(text))]
  {
    assert [Lit(kind, text)][1..] == [];
  }

  lemma {:induction false} HungLiteral(lit: Literal)
    requires NamesKept(PrintLiteral(lit))
    ensures PrintLiteral(HangLiteral(lit)) == HangTokens(PrintLiteral(lit))
    decreases lit, 1
  {
    hide HangToken, HangTokens, NamesKept, PrintEntries, PrintFields, HangEntries, HangFields, PrintBasic, HangBasic;
    match lit
    case BasicLit(kind, text) => HungBasic(kind, text);
    case ListLit(entries) =>
      HungBrackets('[', PrintEntries(entries), ']');
      HungEntries(entries);
    case ObjectLit(fields) =>
      HungBrackets('{', PrintFields(fields), '}');
      HungFields(fields);
    case NullLit => HungName("null");
    case Variable(name) =>
      assert [Punct('$'), Name(name)] == [Punct('$')] + [Name(name)];
      HungJoined([Punct('$')], [Name(name)]);
      HungSign('$');
      HungName(name);
  }

  lemma {:induction false} HungEntries(entries: seq<Literal>)
    requires NamesKept(PrintEntries(entries))
    ensures PrintEntries(HangEntries(entries)) == HangTokens(PrintEntries(entries))
    decreases entries, 0
  {
    hide HangToken, HangTokens, NamesKept, PrintLiteral, HangLiteral;
    HungNothing();
    if entries != [] {
      HungJoined(PrintLiteral(entries[0]), PrintEntries(entries[1..]));
      HungLiteral(entries[0]);
      HungEntries(entries[1..]);
      assert HangEntries(entries)[1..] == HangEntries(entries[1..]);
    }
  }

  lemma {:induction false} HungFields(fields: seq<ObjectField>)
    requires NamesKept(PrintFields(fields))
    ensures PrintFields(HangFields(fields)) == HangTokens(PrintFields(fields))
    decreases fields, 0
  {
    hide HangToken, HangTokens, NamesKept, PrintLiteral, HangLiteral;
    HungNothing();
    if fields != [] {
      var lit := fields[0].value;
      HungJoined([Name(fields[0].name), Punct(':')] + PrintLiteral(lit), PrintFields(fields[1..]));
      HungNamed(fields[0].name, PrintLiteral(lit));
      HungLiteral(lit);
      HungFields(fields[1..]);
      assert HangFields(fields)[1..] == HangFields(fields[1..]);
    }
  }

  lemma {:induction false} HungArgs(args: seq<Argument>)
    requires NamesKept(PrintArgs(args))
    ensures PrintArgs(HangArgs(args)) == HangTokens(PrintArgs(args))
    decreases args
  {
    hide HangToken, HangTokens, NamesKept, PrintLiteral, HangLiteral;
    HungNothing();
    if args != [] {
      var lit := args[0].value;
      HungJoined(PrintArgument(args[0]), PrintArgs(args[1..]));
      HungNamed(args[0].name, PrintLiteral(lit));
      HungLiteral(lit);
      HungArgs(args[1..]);
      assert HangArgs(args)[1..] == HangArgs(args[1..]);
    }
  }

  lemma HungArguments(args: seq<Argument>)
    requires NamesKept(PrintArguments(args))
    ensures PrintArguments(HangArgs(args)) == HangTokens(PrintArguments(args))
  {
    hide HangToken, HangTokens, NamesKept, PrintArgs;
    HungNothing();
    if args != [] {
      HungBrackets('(', PrintArgs(args), ')');
      HungArgs(args);
    }
  }

  lemma {:induction false} HungDirectives(ds: seq<Directive>)
    requires NamesKept(PrintDirectives(ds))
    ensures PrintDirectives(HangDirectives(ds)) == HangTokens(PrintDirectives(ds))
  {
    hide HangToken, HangTokens, NamesKept, PrintArguments, HangArgs;
    HungNothing();
    if ds != [] {
      var args := PrintArguments(ds[0].args);
      HungJoined(PrintDirective(ds[0]), PrintDirectives(ds[1..]));
      HungThree([Punct('@')], [Name(ds[0].name)], args);
      assert [Punct('@')] + [Name(ds[0].name)] == [Punct('@'), Name(ds[0].name)];
      HungSign('@');
      HungName(ds[0].name);
      HungArguments(ds[0].args);
      HungDirectives(ds[1..]);
      assert HangDirectives(ds)[1..] == HangDirectives(ds[1..]);
    }
  }

  // ----- variables -----

  lemma {:induction false} HungType(t: Type)
    requires NamesKept(PrintType(t))
    ensures HangTokens(PrintType(t)) == PrintType(t)
  {
    hide HangToken, HangTokens, NamesKept;
    match t
    case Named(name) => HungName(name);
    case ListOf(of) =>
      HungBrackets('[', PrintType(of), ']');
      HungType(of);
    case NonNullOf(of) =>
      HungJoined(PrintType(of), [Punct('!')]);
      HungSign('!');
      HungType(of);
  }

  lemma HungVariableName(name: string)
    requires NamesKept(PrintVariableName(name))
    ensures HangTokens(PrintVariableName(name)) == PrintVariableName(name)
  {
    hide HangToken, HangTokens, NamesKept;
    if name != "" && name[0] == '$' {
      assert PrintVariableName(name) == [Punct('$')] + [Name(name[1..])];
      HungJoined([Punct('$')], [Name(name[1..])]);
      HungSign('$');
      HungName(name[1..]);
    } else {
      HungName(name);
    }
  }

  lemma HungDefault(d: Option<Literal>)
    requires NamesKept(PrintDefault(d))
    ensures PrintDefault(if d.Some? then Some(HangLiteral(d.value)) else None) == HangTokens(PrintDefault(d))
  {
    hide HangToken, HangTokens, NamesKept, PrintLiteral, HangLiteral;
    HungNothing();
    if d.Some? {
      HungJoined([Punct('=')], PrintLiteral(d.value));
      HungSign('=');
      HungLiteral(d.value);
    }
  }

  lemma HungVariable(v: InputValue)
    requires NamesKept(PrintVariable(v))
    ensures PrintVariable(HangVariable(v)) == HangTokens(PrintVariable(v))
  {
    hide HangToken, HangTokens, NamesKept, PrintVariableName, PrintType, PrintDefault;
    HungThree(PrintVariableName(v.name), [Punct(':')], PrintType(v.typ));
    HungJoined(PrintVariableName(v.name) + [Punct(':')] + PrintType(v.typ), PrintDefault(v.default));
    HungVariableName(v.name);
    HungSign(':');
    HungType(v.typ);
    HungDefault(v.default);
  }

  lemma {:induction false} HungVars(vars: seq<InputValue>)
    requires NamesKept(PrintVars(vars))
    ensures PrintVars(HangVars(vars)) == HangTokens(PrintVars(vars))
  {
    hide HangToken, HangTokens, NamesKept, PrintVariable, HangVariable;
    HungNothing();
    if vars != [] {
      HungJoined(PrintVariable(vars[0]), PrintVars(vars[1..]));
      HungVariable(vars[0]);
      HungVars(vars[1..]);
      assert HangVars(vars)[1..] == HangVars(vars[1..]);
    }
  }

  // ----- selections -----

  lemma HungOptionalName(name: string)
    requires NamesKept(PrintOptionalName(name))
    ensures HangTokens(PrintOptionalName(name)) == PrintOptionalName(name)
  {
    HungNothing();
    HungName(name);
  }

  lemma HungFieldName(alias: string, name: string)
    requires NamesKept([Name(alias)] + if name != alias then [Punct(':'), Name(name)] else [])
    ensures HangTokens([Name(alias)] + if name != alias then [Punct(':'), Name(name)] else []) ==
            [Name(alias)] + if name != alias then [Punct(':'), Name(name)] else []
  {
    hide HangToken, HangTokens, NamesKept;
    HungName(alias);
    HungName(name);
    HungSign(':');
    HungNothing();
    HungJoined([Name(alias)], if name != alias then [Punct(':'), Name(name)] else []);
    HungJoined([Punct(':')], [Name(name)]);
    assert [Punct(':')] + [Name(name)] == [Punct(':'), Name(name)];
  }

  lemma HungDots(name: string)
    requires NamesKept([Punct('.'), Punct('.'), Punct('.'), Name(name)])
    ensures HangTokens([Punct('.'), Punct('.'), Punct('.'), Name(name)]) ==
            [Punct('.'), Punct('.'), Punct('.'), Name(name)]
  {
    hide HangToken, HangTokens, NamesKept;
    HungSign('.');
    HungThree([Punct('.')], [Punct('.')], [Punct('.')]);
    HungJoined([Punct('.')] + [Punct('.')] + [Punct('.')], [Name(name)]);
    HungName(name);
    assert [Punct('.')] + [Punct('.')] + [Punct('.')] + [Name(name)] ==
           [Punct('.'), Punct('.'), Punct('.'), Name(name)];
  }

  lemma {:induction false} HungSelection(s: Selection)
    requires NamesKept(PrintSelection(s))
    ensures PrintSelection(HangSelection(s)) == HangTokens(PrintSelection(s))
    decreases s, 1
  {
    hide HangToken, HangTokens, NamesKept, PrintArguments, PrintDirectives, PrintSelectionSet, PrintOptionalName;
    hide HangArgs, HangDirectives, HangSelections;
    match s
    case Field(f) =>
      var a := [Name(f.alias)] + (if f.name != f.alias then [Punct(':'), Name(f.name)] else []);
      var b, c, d := PrintArguments(f.args), PrintDirectives(f.directives), PrintSelectionSet(f.selections);
      HungThree(a, b, c);
      HungJoined(a + b + c, d);
      HungFieldName(f.alias, f.name);
      HungArguments(f.args);
      HungDirectives(f.directives);
      HungSet(f.selections);
    case Spread(name, directives) =>
      HungJoined([Punct('.'), Punct('.'), Punct('.'), Name(name)], PrintDirectives(directives));
      HungDots(name);
      HungDirectives(directives);
    case Inline(on, directives, sels) =>
      var a := [Punct('.'), Punct('.'), Punct('.'), Name("on")];
      HungThree(a, PrintOptionalName(on), PrintDirectives(directives));
      HungJoined(a + PrintOptionalName(on) + PrintDirectives(directives), PrintSelectionSet(sels));
      HungDots("on");
      HungOptionalName(on);
      HungDirectives(directives);
      HungSet(sels);
  }

  lemma HungSet(sels: seq<Selection>)
    requires NamesKept(PrintSelectionSet(sels))
    ensures PrintSelectionSet(HangSelections(sels)) == HangTokens(PrintSelectionSet(sels))
    decreases sels, 3
  {
    hide HangToken, HangTokens, NamesKept, PrintSelections;
    HungNothing();
    if sels != [] {
      HungBrackets('{', PrintSelections(sels), '}');
      HungSelections(sels);
    }
  }

  lemma {:induction false} HungSelections(sels: seq<Selection>)
    requires NamesKept(PrintSelections(sels))
    ensures PrintSelections(HangSelections(sels)) == HangTokens(PrintSelections(sels))
    decreases sels, 2
  {
    hide HangToken, HangTokens, NamesKept, PrintSelection, HangSelection;
    HungNothing();
    if sels != [] {
      HungJoined(PrintSelection(sels[0]), PrintSelections(sels[1..]));
      HungSelection(sels[0]);
      HungSelections(sels[1..]);
      assert HangSelections(sels)[1..] == HangSelections(sels[1..]);
    }
  }

  // ----- what indentation keeps -----

  lemma {:induction false} FeedsKept(s: string)
    requires '\n' in s
    ensures '\n' in Hang(s, INDENT)
  {
    if s[0] != '\n' {
      FeedsKept(s[1..]);
    }
  }

  lemma FeedsKeptInText(text: string)
    requires '\n' in text
    ensures '\n' in HangText(text)
  {
    if EndsLine(text) {
      assert HangText(text)[|HangText(text)| - 1] == '\n';
    } else {
      FeedsKept(text);
    }
  }

  lemma NullKept(text: string)
    requires HangText(text) == "null"
    ensures text == "null"
  {
    assert '\n' !in HangText(text);
    if '\n' in text {
      FeedsKeptInText(text);
    } else {
      HangNothing(text, INDENT);
    }
  }

  lemma HangBasicOk(kind: LiteralKind, text: string)
    requires BasicOk(kind, text)
    ensures BasicOk(kind, HangBasic(text))
  {
    hide HangText;
    HangTextStarts(text);
    if text != "" && text[0] == '-' {
      HangTextStarts(text[1..]);
      assert ("-" + HangText(text[1..]))[1..] == HangText(text[1..]);
    } else if HangText(text) == "null" {
      NullKept(text);
    }
  }

  lemma {:induction false} HangLiteralOk(lit: Literal, constOnly: bool)
    requires LiteralOk(lit, constOnly)
    ensures LiteralOk(HangLiteral(lit), constOnly)
    decreases lit, 1
  {
    hide HangBasic, HangEntries, HangFields, BasicOk, InOrder;
    match lit
    case BasicLit(kind, text) => HangBasicOk(kind, text);
    case ListLit(entries) => HangEntriesOk(entries, constOnly);
    case ObjectLit(fields) =>
      HangFieldsOk(fields, constOnly);
      HangFieldsInOrder(fields);
    case NullLit =>
    case Variable(_) =>
  }

  lemma {:induction false} HangEntriesOk(entries: seq<Literal>, constOnly: bool)
    requires forall e :: e in entries ==> LiteralOk(e, constOnly)
    ensures forall e :: e in HangEntries(entries) ==> LiteralOk(e, constOnly)
    decreases entries, 0
  {
    hide LiteralOk, HangLiteral;
    if entries != [] {
      HangLiteralOk(entries[0], constOnly);
      HangEntriesOk(entries[1..], constOnly);
    }
  }

  lemma {:induction false} HangFieldsOk(fields: seq<ObjectField>, constOnly: bool)
    requires forall f :: f in fields ==> LiteralOk(f.value, constOnly)
    ensures forall f :: f in HangFields(fields) ==> LiteralOk(f.value, constOnly)
    decreases fields, 0
  {
    hide LiteralOk, HangLiteral;
    if fields != [] {
      HangLiteralOk(fields[0].value, constOnly);
      HangFieldsOk(fields[1..], constOnly);
    }
  }

  lemma {:induction false} HangFieldNames(fields: seq<ObjectField>)
    ensures |HangFields(fields)| == |fields| &&
            forall i | 0 <= i < |fields| :: HangFields(fields)[i].name == fields[i].name
  {
    hide HangLiteral;
    if fields != [] {
      HangFieldNames(fields[1..]);
    }
  }

  lemma HangFieldsInOrder(fields: seq<ObjectField>)
    requires InOrder(fields)
    ensures InOrder(HangFields(fields))
  {
    hide HangFields;
    HangFieldNames(fields);
    var hung := HangFields(fields);
    forall i, j | 0 <= i < j < |hung|
      ensures !NameLess(hung[j], hung[i])
    {
      assert !NameLess(fields[j], fields[i]);
    }
  }

  lemma {:induction false} HangArgsOk(args: seq<Argument>)
    requires ArgsOk(args)
    ensures ArgsOk(HangArgs(args))
  {
    hide LiteralOk, HangLiteral;
    if args != [] {
      HangLiteralOk(args[0].value, false);
      HangArgsOk(args[1..]);
    }
  }

  lemma {:induction false} HangDirectivesOk(ds: seq<Directive>)
    requires DirectivesOk(ds)
    ensures DirectivesOk(HangDirectives(ds))
  {
    hide ArgsOk, HangArgs;
    if ds != [] {
      HangArgsOk(ds[0].args);
      HangDirectivesOk(ds[1..]);
    }
  }

  lemma {:induction false} HangVarsOk(vars: seq<InputValue>)
    requires forall v :: v in vars ==> VariableOk(v)
    ensures forall v :: v in HangVars(vars) ==> VariableOk(v)
    ensures VarShapes(HangVars(vars)) == VarShapes(vars)
  {
    hide LiteralOk, HangLiteral, DirectivesOk, TypeOk;
    if vars != [] {
      assert VariableOk(vars[0]);
      if vars[0].default.Some? {
        HangLiteralOk(vars[0].default.value, true);
      }
      HangVarsOk(vars[1..]);
      assert HangVars(vars)[1..] == HangVars(vars[1..]);
    }
  }

  lemma {:induction false} HangSelectionKeeps(s: Selection)
    requires SelectionOk(s)
    ensures SelectionOk(HangSelection(s)) && Shape(HangSelection(s)) == Shape(s)
    decreases s, 1
  {
    hide ArgsOk, DirectivesOk, SelectionsOk, Shapes, HangArgs, HangDirectives, HangSelections;
    match s
    case Field(f) =>
      HangArgsOk(f.args);
      HangDirectivesOk(f.directives);
      HangSelectionsKeep(f.selections);
    case Spread(_, directives) => HangDirectivesOk(directives);
    case Inline(_, directives, sels) =>
      HangDirectivesOk(directives);
      HangSelectionsKeep(sels);
  }

  lemma {:induction false} HangSelectionsKeep(sels: seq<Selection>)
    requires SelectionsOk(sels)
    ensures SelectionsOk(HangSelections(sels)) && Shapes(HangSelections(sels)) == Shapes(sels)
    decreases sels, 2
  {
    hide SelectionOk, Shape, HangSelection;
    if sels != [] {
      HangSelectionKeeps(sels[0]);
      HangSelectionsKeep(sels[1..]);
      assert HangSelections(sels)[1..] == HangSelections(sels[1..]);
    }
  }

  lemma {:induction false} LaidSelectionKeeps(s: Selection)
    requires SelectionOk(s)
    ensures SelectionOk(LaidSelection(s)) && Shape(LaidSelection(s)) == Shape(s)
    decreases s, 1
  {
    hide ArgsOk, DirectivesOk, SelectionsOk, Shapes, LaidSelections;
    match s
    case Field(f) => LaidSelectionsKeep(f.selections);
    case Spread(_, _) =>
    case Inline(_, _, sels) => LaidSelectionsKeep(sels);
  }

  lemma {:induction false} LaidSelectionsKeep(sels: seq<Selection>)
    requires SelectionsOk(sels)
    ensures SelectionsOk(LaidSelections(sels)) && Shapes(LaidSelections(sels)) == Shapes(sels)
    decreases sels, 2
  {
    hide SelectionOk, Shape, HangSelection, LaidSelection;
    if sels != [] {
      LaidSelectionKeeps(sels[0]);
      HangSelectionKeeps(LaidSelection(sels[0]));
      LaidSelectionsKeep(sels[1..]);
      assert LaidSelections(sels)[1..] == LaidSelections(sels[1..]);
    }
  }

  /** Whether a selection is printable shows in its shape. */
  lemma {:induction false} PrintableByShape(s: Selection)
    ensures SelectionPrintable(Shape(s)) <==> SelectionPrintable(s)
    decreases s, 1
  {
    hide Shapes, SelectionsPrintable;
    match s
    case Field(f) => SetPrintableByShape(f.selections);
    case Spread(_, _) =>
    case Inline(_, _, sels) => SetPrintableByShape(sels);
  }

  lemma {:induction false} SetPrintableByShape(sels: seq<Selection>)
    ensures SelectionsPrintable(Shapes(sels)) <==> SelectionsPrintable(sels)
    ensures Shapes(sels) == [] <==> sels == []
    decreases sels, 2
  {
    hide Shape, SelectionPrintable;
    if sels != [] {
      PrintableByShape(sels[0]);
      SetPrintableByShape(sels[1..]);
      var shapes := Shapes(sels);
      assert shapes[0] == Shape(sels[0]) && shapes[1..] == Shapes(sels[1..]);
      OneAndOthers(sels);
      OneAndOthers(shapes);
    }
  }

  lemma OneAndOthers(sels: seq<Selection>)
    requires sels != []
    ensures SelectionsPrintable(sels) <==> SelectionPrintable(sels[0]) && SelectionsPrintable(sels[1..])
  {
    hide SelectionPrintable;
    assert sels == [sels[0]] + sels[1..];
  }

  lemma {:induction false} VarDirectivesByShape(vars: seq<InputValue>)
    ensures |VarShapes(vars)| == |vars| &&
            forall i | 0 <= i < |vars| :: VarShapes(vars)[i].directives == vars[i].directives
  {
    if vars != [] {
      VarDirectivesByShape(vars[1..]);
    }
  }

  lemma BareByShape(vars: seq<InputValue>, others: seq<InputValue>)
    requires VarShapes(vars) == VarShapes(others) && forall v :: v in vars ==> v.directives == []
    ensures forall v :: v in others ==> v.directives == []
    ensures vars == [] <==> others == []
  {
    hide VarShapes;
    VarDirectivesByShape(vars);
    VarDirectivesByShape(others);
  }

  lemma LaidOperationKeeps(op: Operation)
    requires OperationOk(op)
    ensures OperationOk(LaidOperation(op)) && OperationShape(LaidOperation(op)) == OperationShape(op)
    ensures OperationPrintable(LaidOperation(op)) <==> OperationPrintable(op)
  {
    hide VariableOk, DirectivesOk, SelectionsOk, SelectionsPrintable, Shapes, VarShapes, LaidSelections, HangVars,
         EndsOpen;
    HangVarsOk(op.vars);
    LaidSelectionsKeep(op.selections);
    SetPrintableByShape(op.selections);
    SetPrintableByShape(LaidSelections(op.selections));
    var vars := LaidVars(op.vars);
    if forall v :: v in op.vars ==> v.directives == [] {
      BareByShape(op.vars, vars);
    } else if forall v :: v in vars ==> v.directives == [] {
      BareByShape(vars, op.vars);
    }
  }

  lemma LaidFragmentKeeps(f: Fragment)
    requires FragmentOk(f)
    ensures FragmentOk(LaidFragment(f)) && FragmentShape(LaidFragment(f)) == FragmentShape(f)
    ensures FragmentPrintable(LaidFragment(f)) <==> FragmentPrintable(f)
  {
    hide DirectivesOk, SelectionsOk, SelectionsPrintable, Shapes, LaidSelections;
    LaidSelectionsKeep(f.selections);
    SetPrintableByShape(f.selections);
    SetPrintableByShape(LaidSelections(f.selections));
  }

  lemma {:induction false} LaidOperationsKeep(ops: seq<Operation>)
    requires forall op :: op in ops ==> OperationOk(op)
    ensures forall op :: op in LaidOperations(ops) ==> OperationOk(op)
    ensures StartsLike(LaidOperations(ops), ops) && |LaidOperations(ops)| == |ops|
    ensures (forall op :: op in LaidOperations(ops) ==> OperationPrintable(op)) <==>
            forall op :: op in ops ==> OperationPrintable(op)
  {
    hide OperationOk, OperationPrintable, OperationShape, LaidOperation;
    if ops != [] {
      LaidOperationKeeps(ops[0]);
      LaidOperationsKeep(ops[1..]);
      assert ops == [ops[0]] + ops[1..];
    }
  }

  lemma {:induction false} LaidFragmentsKeep(fs: seq<Fragment>)
    requires forall f :: f in fs ==> FragmentOk(f)
    ensures forall f :: f in LaidFragments(fs) ==> FragmentOk(f)
    ensures FragmentsStartLike(LaidFragments(fs), fs) && |LaidFragments(fs)| == |fs|
    ensures (forall f :: f in LaidFragments(fs) ==> FragmentPrintable(f)) <==>
            forall f :: f in fs ==> FragmentPrintable(f)
  {
    hide FragmentOk, FragmentPrintable, FragmentShape, LaidFragment;
    if fs != [] {
      LaidFragmentKeeps(fs[0]);
      LaidFragmentsKeep(fs[1..]);
      assert fs == [fs[0]] + fs[1..];
    }
  }

  /** Laying out changes nothing but literals. */
  lemma LaidKeeps(doc: Document)
    requires DocumentOk(doc)
    ensures DocumentOk(Laid(doc)) && (Printable(Laid(doc)) <==> Printable(doc))
    ensures StartsLike(Laid(doc).operations, doc.operations) && FragmentsStartLike(Laid(doc).fragments, doc.fragments)
    ensures StartsLike(doc.operations, Laid(doc).operations) && FragmentsStartLike(doc.fragments, Laid(doc).fragments)
  {
    hide OperationOk, OperationPrintable, FragmentOk, FragmentPrintable, OperationShape, FragmentShape;
    LaidOperationsKeep(doc.operations);
    LaidFragmentsKeep(doc.fragments);
  }
}
