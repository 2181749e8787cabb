/**
 Parsing the tokens printed for a document gives the document back.
 */
module RoundTrip {
  import opened Wrappers
  import opened Query
  import opened Ordering
  import opened Syntax
  import opened Printing

  // ----- what the parser can produce -----

  ghost predicate PlainText(kind: LiteralKind, text: string) {
    (text == "" || text[0] != '-') && !(kind == IdentLit && text == "null")
  }

  ghost predicate BasicOk(kind: LiteralKind, text: string) {
    PlainText(kind, text) || (text != "" && text[0] == '-' && (text[1..] == "" || text[1..][0] != '-'))
  }

  ghost predicate InOrder(fields: seq<ObjectField>) {
    forall i, j :: 0 <= i < j < |fields| ==> !NameLess(fields[j], fields[i])
  }

  ghost predicate LiteralOk(lit: Literal, constOnly: bool) {
    match lit
    case BasicLit(kind, text) => BasicOk(kind, text)
    case ListLit(entries) => forall e :: e in entries ==> LiteralOk(e, constOnly)
    case ObjectLit(fields) => InOrder(fields) && forall f :: f in fields ==> LiteralOk(f.value, constOnly)
    case NullLit => true
    case Variable(_) => !constOnly
  }

  ghost predicate ArgsOk(args: seq<Argument>) {
    forall a :: a in args ==> LiteralOk(a.value, false)
  }

  ghost predicate DirectivesOk(ds: seq<Directive>) {
    forall d :: d in ds ==> ArgsOk(d.args)
  }

  ghost predicate TypeOk(t: Type) {
    match t
    case NonNullOf(of) => !of.NonNullOf? && TypeOk(of)
    case ListOf(of) => TypeOk(of)
    case Named(_) => true
  }

  ghost predicate VariableOk(v: InputValue) {
    v.name != "" && v.name[0] == '$' && TypeOk(v.typ) && (v.default.Some? ==> LiteralOk(v.default.value, true)) &&
    DirectivesOk(v.directives)
  }

  ghost predicate SelectionOk(s: Selection)
    decreases s, 0
  {
    match s
    case Field(f) => f.alias != "" && ArgsOk(f.args) && DirectivesOk(f.directives) && f.schema == None &&
      SelectionsOk(f.selections)
    case Inline(on, directives, sels) => DirectivesOk(directives) && SelectionsOk(sels)
    case Spread(name, directives) => name != "on" && DirectivesOk(directives)
  }

  ghost predicate SelectionsOk(sels: seq<Selection>)
    decreases sels, 1
  {
    forall s :: s in sels ==> SelectionOk(s)
  }

  ghost predicate OperationOk(op: Operation) {
    DirectivesOk(op.directives) && (forall v :: v in op.vars ==> VariableOk(v)) && SelectionsOk(op.selections)
  }

  ghost predicate FragmentOk(f: Fragment) {
    f.name != "" && f.on != "" && DirectivesOk(f.directives) && SelectionsOk(f.selections)
  }

  ghost predicate DocumentOk(doc: Document) {
    && (forall op :: op in doc.operations ==> OperationOk(op))
    && (forall f :: f in doc.fragments ==> FragmentOk(f))
  }

  // ----- what the printer can print -----

  /** Inline fragments have a type and selections; so have operations and fragments, variables have no directives,
      and before variables the last directive has arguments. */
  ghost predicate SelectionPrintable(s: Selection)
    decreases s, 0
  {
    match s
    case Field(f) => SelectionsPrintable(f.selections)
    case Inline(on, _, sels) => on != "" && sels != [] && SelectionsPrintable(sels)
    case Spread(_, _) => true
  }

  ghost predicate SelectionsPrintable(sels: seq<Selection>)
    decreases sels, 1
  {
    forall s :: s in sels ==> SelectionPrintable(s)
  }

  ghost predicate OperationPrintable(op: Operation) {
    && op.selections != [] && SelectionsPrintable(op.selections)
    && (forall v :: v in op.vars ==> v.directives == [])
    && (op.vars == [] || !EndsOpen(op.directives))
  }

  /** What is printed for the directives ends without arguments, so that a parenthesis after it would start them. */
  predicate EndsOpen(ds: seq<Directive>) {
    ds != [] && ds[|ds| - 1].args == []
  }

  ghost predicate FragmentPrintable(f: Fragment) {
    f.selections != [] && SelectionsPrintable(f.selections)
  }

  ghost predicate Printable(doc: Document) {
    && (forall op :: op in doc.operations ==> OperationPrintable(op))
    && (forall f :: f in doc.fragments ==> FragmentPrintable(f))
  }

  // ----- what may follow -----

  /** What follows is not one of the given punctuators. */
  ghost predicate Stops(ts: seq<Token>, cs: set<char>) {
    forall c :: c in cs ==> !Sees(ts, c)
  }

  // ----- sorting -----

  lemma {:induction false} InsertKeepsOrder(f: ObjectField, fields: seq<ObjectField>)
    requires InOrder(fields)
    ensures InOrder(InsertField(f, fields)) && multiset(InsertField(f, fields)) == multiset(fields) + multiset{f}
  {
    hide NameLess;
    if fields == [] {
    } else if NameLess(f, fields[0]) {
      FirstOfAll(f, fields);
    } else {
      InsertKeepsOrder(f, fields[1..]);
      assert fields == [fields[0]] + fields[1..];
      FirstStays(fields[0], fields[1..], f, InsertField(f, fields[1..]));
    }
  }

  lemma FirstOfAll(f: ObjectField, fields: seq<ObjectField>)
    requires InOrder(fields) && fields != [] && NameLess(f, fields[0])
    ensures InOrder([f] + fields)
  {
    forall j | 0 <= j < |fields|
      ensures !NameLess(fields[j], f)
    {
      StringTotal(f.name, fields[0].name);
      if j > 0 {
        NotLessTrans(f, fields[0], fields[j]);
      }
    }
  }

  lemma FirstStays(first: ObjectField, rest: seq<ObjectField>, f: ObjectField, inserted: seq<ObjectField>)
    requires InOrder([first] + rest) && !NameLess(f, first)
    requires InOrder(inserted) && multiset(inserted) == multiset(rest) + multiset{f}
    ensures InOrder([first] + inserted)
  {
    hide NameLess;
    forall j | 0 <= j < |inserted|
      ensures !NameLess(inserted[j], first)
    {
      assert inserted[j] in multiset(rest) + multiset{f};
      if inserted[j] in multiset(rest) {
        var i :| 0 <= i < |rest| && rest[i] == inserted[j];
        assert ([first] + rest)[i + 1] == rest[i] && ([first] + rest)[0] == first;
        assert !NameLess(([first] + rest)[i + 1], ([first] + rest)[0]);
      } else {
        assert inserted[j] == f;
      }
    }
    forall i, j | 0 <= i < j < |inserted| + 1
      ensures !NameLess(([first] + inserted)[j], ([first] + inserted)[i])
    {
      assert ([first] + inserted)[j] == inserted[j - 1];
      if i > 0 {
        assert ([first] + inserted)[i] == inserted[i - 1];
      }
    }
  }

  lemma NotLessTrans(a: ObjectField, b: ObjectField, c: ObjectField)
    requires NameLess(a, b) && !NameLess(c, b)
    ensures !NameLess(c, a)
  {
    if NameLess(c, a) {
      StringTransitive(c.name, a.name, b.name);
    }
  }

  lemma {:induction false} SortIsSorted(fields: seq<ObjectField>)
    ensures InOrder(SortFields(fields)) && multiset(SortFields(fields)) == multiset(fields)
  {
    hide InOrder, InsertField;
    if fields == [] {
      NoneInOrder();
    } else {
      var init := fields[..|fields| - 1];
      SortIsSorted(init);
      InsertKeepsOrder(fields[|fields| - 1], SortFields(init));
      assert fields == init + [fields[|fields| - 1]];
    }
  }

  /** The fields of one name. */
  function FieldsOf(fields: seq<ObjectField>, name: string): seq<ObjectField> {
    if fields == [] then [] else OneOf(fields[0], name) + FieldsOf(fields[1..], name)
  }

  function OneOf(f: ObjectField, name: string): seq<ObjectField> {
    if f.name == name then [f] else []
  }

  lemma {:induction false} FieldsOfOneMore(fields: seq<ObjectField>, f: ObjectField, name: string)
    ensures FieldsOf(fields + [f], name) == FieldsOf(fields, name) + OneOf(f, name)
  {
    hide OneOf;
    if fields == [] {
      assert fields + [f] == [f] && [f][1..] == [];
      assert OneOf(f, name) + [] == [] + OneOf(f, name);
    } else {
      var first, rest := fields[0], fields[1..];
      assert (fields + [f])[1..] == rest + [f];
      FieldsOfOneMore(rest, f, name);
      assert OneOf(first, name) + (FieldsOf(rest, name) + OneOf(f, name)) ==
             (OneOf(first, name) + FieldsOf(rest, name)) + OneOf(f, name);
    }
  }

  lemma {:induction false} NoneLater(f: ObjectField, fields: seq<ObjectField>)
    requires forall g :: g in fields ==> NameLess(f, g)
    ensures FieldsOf(fields, f.name) == []
  {
    if fields != [] {
      NoneLater(f, fields[1..]);
      StringTotal(f.name, fields[0].name);
      assert NameLess(f, fields[0]);
    }
  }

  lemma {:induction false} InsertIsStable(f: ObjectField, fields: seq<ObjectField>, name: string)
    requires InOrder(fields)
    ensures FieldsOf(InsertField(f, fields), name) == FieldsOf(fields, name) + OneOf(f, name)
  {
    hide NameLess, OneOf, InOrder;
    if fields == [] || NameLess(f, fields[0]) {
      InsertedFirst(f, fields, name);
    } else {
      var first, rest := fields[0], fields[1..];
      RestInOrder(fields);
      InsertIsStable(f, rest, name);
      assert ([first] + InsertField(f, rest))[1..] == InsertField(f, rest);
      assert OneOf(first, name) + (FieldsOf(rest, name) + OneOf(f, name)) ==
             (OneOf(first, name) + FieldsOf(rest, name)) + OneOf(f, name);
    }
  }

  lemma RestInOrder(fields: seq<ObjectField>)
    requires InOrder(fields) && fields != []
    ensures InOrder(fields[1..])
  {
    hide NameLess;
  }

  lemma InsertedFirst(f: ObjectField, fields: seq<ObjectField>, name: string)
    requires InOrder(fields) && (fields == [] || NameLess(f, fields[0]))
    ensures FieldsOf([f] + fields, name) == FieldsOf(fields, name) + OneOf(f, name)
  {
    hide NameLess, InOrder;
    assert ([f] + fields)[1..] == fields;
    if fields != [] && f.name == name {
      FirstOfAllLess(f, fields);
      NoneLater(f, fields);
    }
  }

  lemma FirstOfAllLess(f: ObjectField, fields: seq<ObjectField>)
    requires InOrder(fields) && fields != [] && NameLess(f, fields[0])
    ensures forall g :: g in fields ==> NameLess(f, g)
  {
    forall j | 0 <= j < |fields|
      ensures NameLess(f, fields[j])
    {
      if j > 0 {
        StringTotal(f.name, fields[j].name);
        NotLessTrans(f, fields[0], fields[j]);
      }
    }
  }

  /** Fields of one name keep their order. */
  lemma {:induction false} SortIsStable(fields: seq<ObjectField>, name: string)
    ensures FieldsOf(SortFields(fields), name) == FieldsOf(fields, name)
  {
    hide InOrder, InsertField, FieldsOf, OneOf;
    if fields != [] {
      var init, last := fields[..|fields| - 1], fields[|fields| - 1];
      SortIsStable(init, name);
      SortIsSorted(init);
      InsertIsStable(last, SortFields(init), name);
      FieldsOfOneMore(init, last, name);
      assert fields == init + [last];
    }
  }

  lemma NoneInOrder()
    ensures InOrder([])
  {
  }

  lemma {:induction false} InsertLast(f: ObjectField, fields: seq<ObjectField>)
    requires forall i :: 0 <= i < |fields| ==> !NameLess(f, fields[i])
    ensures InsertField(f, fields) == fields + [f]
  {
    if fields != [] {
      InsertLast(f, fields[1..]);
      assert fields == [fields[0]] + fields[1..];
    }
  }

  /** Fields in order stay as they are. */
  lemma {:induction false} SortOfSorted(fields: seq<ObjectField>)
    requires InOrder(fields)
    ensures SortFields(fields) == fields
  {
    if fields != [] {
      SortOfSorted(fields[..|fields| - 1]);
      InsertLast(fields[|fields| - 1], fields[..|fields| - 1]);
      assert fields == fields[..|fields| - 1] + [fields[|fields| - 1]];
    }
  }

  // ----- literals -----

  lemma LiteralStarts(lit: Literal)
    ensures PrintLiteral(lit) != []
    ensures PrintLiteral(lit)[0].Punct? ==> PrintLiteral(lit)[0].ch in {'[', '{', '$', '-'}
  {
  }

  /** What is printed after a first token that is not among `cs` does not matter to what is seen. */
  lemma SeesFirst(ts: seq<Token>, rest: seq<Token>, c: char)
    requires ts != []
    ensures Sees(ts + rest, c) <==> ts[0] == Punct(c)
    ensures SeesName(ts + rest) <==> ts[0].Lit? && ts[0].kind == IdentLit
  {
  }

  lemma BasicBack(kind: LiteralKind, text: string, constOnly: bool, rest: seq<Token>)
    requires BasicOk(kind, text)
    ensures ParseLiteral(PrintBasic(kind, text) + rest, constOnly) == Ok(BasicLit(kind, text), rest)
  {
    var ts := PrintBasic(kind, text) + rest;
    if text != "" && text[0] == '-' {
      assert ts[1..] == [Lit(kind, text[1..])] + rest;
      assert ts[1..][1..] == rest;
      assert text == "-" + text[1..];
    } else {
      assert ts[1..] == rest;
    }
  }

  lemma {:induction false} LiteralBack(lit: Literal, constOnly: bool, rest: seq<Token>)
    requires LiteralOk(lit, constOnly)
    ensures ParseLiteral(PrintLiteral(lit) + rest, constOnly) == Ok(lit, rest)
    decreases lit, 0
  {
    hide SortFields, InsertField, PrintEntries, PrintFields, ParseEntries, ParseFields, BasicOk, PrintBasic, InOrder;
    var ts := PrintLiteral(lit) + rest;
    match lit
    case BasicLit(kind, text) =>
      BasicBack(kind, text, constOnly, rest);
    case ListLit(entries) =>
      EntriesBack(entries, constOnly, rest);
      assert ts[1..] == PrintEntries(entries) + ([Punct(']')] + rest);
    case ObjectLit(fields) =>
      FieldsBack(fields, constOnly, rest);
      SortOfSorted(fields);
      assert ts[1..] == PrintFields(fields) + ([Punct('}')] + rest);
    case NullLit =>
      assert ts[1..] == rest;
    case Variable(name) =>
      assert ts[1..] == [Name(name)] + rest;
      assert ts[1..][1..] == rest;
  }

  lemma {:induction false} EntriesBack(entries: seq<Literal>, constOnly: bool, rest: seq<Token>)
    requires forall e :: e in entries ==> LiteralOk(e, constOnly)
    ensures ParseEntries(PrintEntries(entries) + ([Punct(']')] + rest), constOnly) == Ok(entries, rest)
    decreases entries, 1
  {
    hide ParseLiteral, PrintLiteral, LiteralOk;
    var tail := [Punct(']')] + rest;
    if entries == [] {
      assert [] + tail == tail && tail[1..] == rest;
    } else {
      assert entries == [entries[0]] + entries[1..];
      var more := PrintEntries(entries[1..]) + tail;
      assert PrintEntries(entries) + tail == PrintLiteral(entries[0]) + more;
      LiteralStarts(entries[0]);
      SeesFirst(PrintLiteral(entries[0]), more, ']');
      LiteralBack(entries[0], constOnly, more);
      EntriesBack(entries[1..], constOnly, rest);
    }
  }

  lemma ObjectFieldBack(f: ObjectField, constOnly: bool, rest: seq<Token>)
    requires LiteralOk(f.value, constOnly)
    ensures ParseObjectField([Name(f.name), Punct(':')] + PrintLiteral(f.value) + rest, constOnly) == Ok(f, rest)
    decreases f, 0
  {
    hide ParseLiteral, PrintLiteral, LiteralOk;
    var ts := [Name(f.name), Punct(':')] + PrintLiteral(f.value) + rest;
    assert ts[1..][1..] == PrintLiteral(f.value) + rest;
    LiteralBack(f.value, constOnly, rest);
  }

  lemma {:induction false} FieldsBack(fields: seq<ObjectField>, constOnly: bool, rest: seq<Token>)
    requires forall f :: f in fields ==> LiteralOk(f.value, constOnly)
    ensures ParseFields(PrintFields(fields) + ([Punct('}')] + rest), constOnly) == Ok(fields, rest)
    decreases fields, 1
  {
    hide ParseObjectField, PrintLiteral, LiteralOk;
    var tail := [Punct('}')] + rest;
    if fields == [] {
      assert [] + tail == tail && tail[1..] == rest;
    } else {
      assert fields == [fields[0]] + fields[1..];
      var more := PrintFields(fields[1..]) + tail;
      var first := [Name(fields[0].name), Punct(':')] + PrintLiteral(fields[0].value);
      assert PrintFields(fields) + tail == first + more;
      SeesFirst(first, more, '}');
      ObjectFieldBack(fields[0], constOnly, more);
      FieldsBack(fields[1..], constOnly, rest);
    }
  }

  // ----- arguments and directives -----

  lemma ArgumentBack(arg: Argument, rest: seq<Token>)
    requires LiteralOk(arg.value, false)
    ensures ParseArgument(PrintArgument(arg) + rest) == Ok(arg, rest)
  {
    hide ParseLiteral, PrintLiteral, LiteralOk;
    var ts := PrintArgument(arg) + rest;
    assert ts[1..][1..] == PrintLiteral(arg.value) + rest;
    LiteralBack(arg.value, false, rest);
  }

  lemma {:induction false} ArgsBack(args: seq<Argument>, rest: seq<Token>)
    requires ArgsOk(args)
    ensures ParseArgs(PrintArgs(args) + ([Punct(')')] + rest)) == Ok(args, rest)
  {
    hide ParseArgument, PrintLiteral, LiteralOk;
    var tail := [Punct(')')] + rest;
    if args == [] {
      assert [] + tail == tail && tail[1..] == rest;
    } else {
      assert args == [args[0]] + args[1..];
      var more := PrintArgs(args[1..]) + tail;
      assert PrintArgs(args) + tail == PrintArgument(args[0]) + more;
      SeesFirst(PrintArgument(args[0]), more, ')');
      ArgumentBack(args[0], more);
      ArgsBack(args[1..], rest);
    }
  }

  lemma ArgumentsBack(args: seq<Argument>, rest: seq<Token>)
    requires ArgsOk(args) && (args == [] ==> !Sees(rest, '('))
    ensures ParseOptionalArguments(PrintArguments(args) + rest) == Ok(args, rest)
  {
    hide ParseArgs, PrintArgs, ArgsOk;
    if args == [] {
      assert [] + rest == rest;
    } else {
      var ts := PrintArguments(args) + rest;
      assert ts[1..] == PrintArgs(args) + ([Punct(')')] + rest);
      ArgsBack(args, rest);
    }
  }

  lemma DirectiveBack(d: Directive, rest: seq<Token>)
    requires ArgsOk(d.args) && (d.args == [] ==> !Sees(rest, '('))
    ensures ParseDirective((PrintDirective(d) + rest)[1..]) == Ok(d, rest)
  {
    hide ParseOptionalArguments, PrintArguments, ArgsOk;
    var ts := (PrintDirective(d) + rest)[1..];
    assert ts[1..] == PrintArguments(d.args) + rest;
    ArgumentsBack(d.args, rest);
  }

  lemma {:induction false} DirectivesBack(ds: seq<Directive>, rest: seq<Token>)
    requires DirectivesOk(ds) && !Sees(rest, '@') && (EndsOpen(ds) ==> !Sees(rest, '('))
    ensures ParseDirectives(PrintDirectives(ds) + rest) == Ok(ds, rest)
  {
    hide ParseDirective, PrintArguments, ArgsOk;
    if ds == [] {
      assert [] + rest == rest;
    } else {
      assert ds == [ds[0]] + ds[1..];
      var more := PrintDirectives(ds[1..]) + rest;
      assert PrintDirectives(ds) + rest == PrintDirective(ds[0]) + more;
      if ds[1..] == [] {
        assert more == rest;
      } else {
        SeesFirst(PrintDirectives(ds[1..]), rest, '(');
      }
      DirectiveBack(ds[0], more);
      DirectivesBack(ds[1..], rest);
    }
  }

  // ----- types and variables -----

  lemma {:induction false} TypeBack(t: Type, rest: seq<Token>)
    requires TypeOk(t) && !Sees(rest, '!')
    ensures ParseType(PrintType(t) + rest) == Ok(t, rest)
    decreases t, 1
  {
    hide ParseNullType;
    if t.NonNullOf? {
      var more := [Punct('!')] + rest;
      NullTypeBack(t.of, more);
      assert PrintType(t) + rest == PrintType(t.of) + more;
      assert more[1..] == rest;
    } else {
      NullTypeBack(t, rest);
    }
  }

  lemma {:induction false} NullTypeBack(t: Type, rest: seq<Token>)
    requires TypeOk(t) && !t.NonNullOf?
    ensures ParseNullType(PrintType(t) + rest) == Ok(t, rest)
    decreases t, 0
  {
    hide ParseType;
    var ts := PrintType(t) + rest;
    match t
    case ListOf(of) =>
      var more := [Punct(']')] + rest;
      assert ts[1..] == PrintType(of) + more;
      TypeBack(of, more);
      assert more[1..] == rest;
    case Named(name) =>
      assert ts[1..] == rest;
  }

  lemma DefaultBack(d: Option<Literal>, rest: seq<Token>)
    requires (d.Some? ==> LiteralOk(d.value, true)) && !Sees(rest, '=')
    ensures ParseDefault(PrintDefault(d) + rest) == Ok(d, rest)
  {
    hide ParseLiteral, PrintLiteral, LiteralOk;
    if d.Some? {
      assert (PrintDefault(d) + rest)[1..] == PrintLiteral(d.value) + rest;
      LiteralBack(d.value, true, rest);
    } else {
      assert [] + rest == rest;
    }
  }

  lemma VariablePrinted(v: InputValue, rest: seq<Token>)
    requires v.name != "" && v.name[0] == '$'
    ensures PrintVariable(v) + rest ==
            [Punct('$'), Name(v.name[1..]), Punct(':')] + (PrintType(v.typ) + (PrintDefault(v.default) + rest))
  {
    hide PrintType, PrintDefault;
    var head := [Punct('$'), Name(v.name[1..]), Punct(':')];
    assert PrintVariableName(v.name) + [Punct(':')] == head;
    Joined(head, PrintType(v.typ), PrintDefault(v.default), rest);
  }

  /** The steps of reading a variable, put together. */
  lemma VariableSteps(name: string, one: seq<Token>, typ: Type, two: seq<Token>, default: Option<Literal>,
                      rest: seq<Token>)
    requires ParseType(one) == Ok(typ, two) && ParseDefault(two) == Ok(default, rest)
    requires ParseDirectives(rest) == Ok([], rest)
    ensures ParseVariable([Punct('$'), Name(name), Punct(':')] + one) ==
            Ok(InputValue("$" + name, typ, default, []), rest)
  {
    hide ParseType, ParseDefault, ParseDirectives;
    var ts := [Punct('$'), Name(name), Punct(':')] + one;
    assert ts[1..] == [Name(name), Punct(':')] + one;
    assert ts[1..][1..] == [Punct(':')] + one;
    assert ts[1..][1..][1..] == one;
  }

  lemma VariableBack(v: InputValue, rest: seq<Token>)
    requires VariableOk(v) && v.directives == [] && Stops(rest, {'!', '=', '@'})
    ensures ParseVariable(PrintVariable(v) + rest) == Ok(v, rest)
  {
    hide ParseType, PrintType, ParseDefault, PrintDefault, LiteralOk, TypeOk, DirectivesOk, ParseVariable,
         PrintVariable;
    var two := PrintDefault(v.default) + rest;
    VariablePrinted(v, rest);
    DefaultStarts(v.default, rest);
    TypeBack(v.typ, two);
    DefaultBack(v.default, rest);
    assert ParseDirectives(rest) == Ok([], rest);
    VariableSteps(v.name[1..], PrintType(v.typ) + two, v.typ, two, v.default, rest);
    assert "$" + v.name[1..] == v.name;
  }

  lemma DefaultStarts(d: Option<Literal>, rest: seq<Token>)
    requires !Sees(rest, '!')
    ensures !Sees(PrintDefault(d) + rest, '!')
  {
    if d == None {
      assert [] + rest == rest;
    }
  }

  lemma {:induction false} VarsBack(vars: seq<InputValue>, rest: seq<Token>)
    requires forall v :: v in vars ==> VariableOk(v) && v.directives == []
    ensures ParseVars(PrintVars(vars) + ([Punct(')')] + rest)) == Ok(vars, rest)
  {
    hide ParseVariable, VariableOk, PrintType, PrintDefault;
    var tail := [Punct(')')] + rest;
    if vars == [] {
      assert [] + tail == tail && tail[1..] == rest;
    } else {
      assert vars == [vars[0]] + vars[1..];
      var more := PrintVars(vars[1..]) + tail;
      assert PrintVars(vars) + tail == PrintVariable(vars[0]) + more;
      SeesFirst(PrintVariable(vars[0]), more, ')');
      VarsStart(vars[1..], tail);
      VariableBack(vars[0], more);
      VarsBack(vars[1..], rest);
    }
  }

  lemma VarsStart(vars: seq<InputValue>, rest: seq<Token>)
    requires Stops(rest, {'!', '=', '@'})
    ensures Stops(PrintVars(vars) + rest, {'!', '=', '@'})
  {
    if vars == [] {
      assert [] + rest == rest;
    } else {
      assert PrintVars(vars) + rest == PrintVariable(vars[0]) + (PrintVars(vars[1..]) + rest);
    }
  }

  lemma VariablesBack(vars: seq<InputValue>, rest: seq<Token>)
    requires (forall v :: v in vars ==> VariableOk(v) && v.directives == []) && !Sees(rest, '(')
    ensures ParseOptionalVars(PrintVariables(vars) + rest) == Ok(vars, rest)
  {
    hide ParseVars, PrintVars, VariableOk;
    if vars == [] {
      assert [] + rest == rest;
    } else {
      assert (PrintVariables(vars) + rest)[1..] == PrintVars(vars) + ([Punct(')')] + rest);
      VarsBack(vars, rest);
    }
  }

  // ----- selections -----

  /** An optional part does not start with what must not follow, nor does what comes after it. */
  lemma PartStops(part: seq<Token>, first: char, rest: seq<Token>, cs: set<char>)
    requires (part == [] || part[0] == Punct(first)) && first !in cs && Stops(rest, cs)
    ensures Stops(part + rest, cs) && forall c :: c in cs ==> !Sees(part + rest, c)
  {
    if part == [] {
      assert part + rest == rest;
    }
  }

  lemma StopsFewer(ts: seq<Token>, cs: set<char>, ds: set<char>)
    requires Stops(ts, cs) && ds <= cs
    ensures Stops(ts, ds) && forall c :: c in ds ==> !Sees(ts, c)
  {
  }

  const FIELD_END := {':', '(', '@', '{'}

  lemma {:induction false} SelectionBack(s: Selection, rest: seq<Token>)
    requires SelectionOk(s) && SelectionPrintable(s) && Stops(rest, FIELD_END)
    ensures ParseSelection(PrintSelection(s) + rest) == Ok(s, rest)
    decreases s, 2
  {
    hide ParseField, ParseSpread, SelectionOk, SelectionPrintable, PrintArguments, PrintDirectives, PrintSelectionSet;
    match s
    case Field(f) => FieldBack(s, rest);
    case Spread(_, _) => SpreadBack(s, rest);
    case Inline(_, _, _) => InlineBack(s, rest);
  }

  /** The steps of reading a field, put together. */
  lemma FieldSteps(ts: seq<Token>, f: FieldSelection, t1: seq<Token>, t2: seq<Token>, t3: seq<Token>, t4: seq<Token>,
                   rest: seq<Token>)
    requires ParseName(ts) == Ok(f.alias, t1) && ParseFieldName(t1, f.alias) == Ok(f.name, t2)
    requires ParseOptionalArguments(t2) == Ok(f.args, t3) && ParseDirectives(t3) == Ok(f.directives, t4)
    requires ParseOptionalSelectionSet(t4) == Ok(f.selections, rest) && f.schema == None
    ensures ParseField(ts) == Ok(f, rest)
  {
    hide ParseName, ParseFieldName, ParseOptionalArguments, ParseDirectives, ParseOptionalSelectionSet;
  }

  lemma FieldPrinted(s: Selection, rest: seq<Token>)
    requires s.Field?
    ensures (var f := s.field;
             var named := if f.name != f.alias then [Punct(':'), Name(f.name)] else [];
             PrintSelection(s) + rest ==
             [Name(f.alias)] + (named + (PrintArguments(f.args) +
                                         (PrintDirectives(f.directives) + (PrintSelectionSet(f.selections) + rest)))))
  {
    hide PrintArguments, PrintDirectives, PrintSelectionSet;
  }

  lemma FirstName(name: string, rest: seq<Token>)
    ensures ParseName([Name(name)] + rest) == Ok(name, rest)
  {
    assert ([Name(name)] + rest)[1..] == rest;
  }

  lemma FieldBack(s: Selection, rest: seq<Token>)
    requires s.Field? && SelectionOk(s) && SelectionPrintable(s) && Stops(rest, FIELD_END)
    ensures ParseField(PrintSelection(s) + rest) == Ok(s.field, rest)
    decreases s, 1
  {
    hide ParseOptionalArguments, PrintArguments, ParseDirectives, PrintDirectives, ParseOptionalSelectionSet,
         PrintSelectionSet;
    hide ParseField, ParseName, ParseFieldName;
    hide ArgsOk, DirectivesOk, Stops, Sees, EndsOpen;
    var f := s.field;
    PartsStart(f.args, f.directives, f.selections);
    var three := PrintSelectionSet(f.selections) + rest;
    var two := PrintDirectives(f.directives) + three;
    var one := PrintArguments(f.args) + two;
    var named := if f.name != f.alias then [Punct(':'), Name(f.name)] else [];
    StopsFewer(rest, FIELD_END, {':', '(', '@'});
    StopsFewer(rest, FIELD_END, {'{'});
    PartStops(PrintSelectionSet(f.selections), '{', rest, {':', '(', '@'});
    StopsFewer(PrintSelectionSet(f.selections) + rest, {':', '(', '@'}, {':', '('});
    PartStops(PrintDirectives(f.directives), '@', three, {':', '('});
    StopsFewer(two, {':', '('}, {':'});
    PartStops(PrintArguments(f.args), '(', two, {':'});
    FieldPrinted(s, rest);
    FirstName(f.alias, named + one);
    FieldNameBack(f.alias, f.name, one);
    ArgumentsBack(f.args, two);
    DirectivesBack(f.directives, three);
    OptionalSetBack(f.selections, rest);
    FieldSteps(PrintSelection(s) + rest, f, named + one, one, two, three, rest);
  }

  lemma FieldNameBack(alias: string, name: string, rest: seq<Token>)
    requires !Sees(rest, ':')
    ensures ParseFieldName((if name != alias then [Punct(':'), Name(name)] else []) + rest, alias) == Ok(name, rest)
  {
    if name == alias {
      assert [] + rest == rest;
    } else {
      var ts := [Punct(':'), Name(name)] + rest;
      assert ts[1..] == [Name(name)] + rest && ts[1..][1..] == rest;
    }
  }

  lemma PartsStart(args: seq<Argument>, ds: seq<Directive>, sels: seq<Selection>)
    ensures PrintArguments(args) == [] || PrintArguments(args)[0] == Punct('(')
    ensures PrintDirectives(ds) == [] || PrintDirectives(ds)[0] == Punct('@')
    ensures PrintSelectionSet(sels) == [] || PrintSelectionSet(sels)[0] == Punct('{')
    ensures sels != [] ==> PrintSelectionSet(sels) != []
  {
  }

  lemma SpreadBack(s: Selection, rest: seq<Token>)
    requires s.Spread? && SelectionOk(s) && Stops(rest, FIELD_END)
    ensures ParseSelection(PrintSelection(s) + rest) == Ok(s, rest)
  {
    hide ParseDirectives, PrintDirectives, DirectivesOk;
    var ts := PrintSelection(s) + rest;
    assert ts[3..] == [Name(s.name)] + (PrintDirectives(s.directives) + rest);
    assert ts[3..][1..] == PrintDirectives(s.directives) + rest;
    DirectivesBack(s.directives, rest);
  }

  function DottedOn(on: string): seq<Token> {
    [Punct('.'), Punct('.'), Punct('.'), Name("on"), Name(on)]
  }

  lemma InlinePrinted(s: Selection, rest: seq<Token>)
    requires s.Inline? && s.on != ""
    ensures PrintSelection(s) + rest ==
            DottedOn(s.on) + (PrintDirectives(s.directives) + (PrintSelectionSet(s.selections) + rest))
  {
    hide PrintDirectives, PrintSelectionSet;
    var d, p := PrintDirectives(s.directives), PrintSelectionSet(s.selections);
    assert PrintSelection(s) == DottedOn(s.on) + d + p;
    Joined(DottedOn(s.on), d, p, rest);
  }

  lemma Joined(a: seq<Token>, b: seq<Token>, c: seq<Token>, d: seq<Token>)
    ensures a + b + c + d == a + (b + (c + d))
  {
  }

  /** The steps of reading a typed inline fragment, put together. */
  lemma InlineSteps(on: string, one: seq<Token>, ds: seq<Directive>, two: seq<Token>)
    requires ParseDirectives(one) == Ok(ds, two)
    ensures (var sels := ParseSelectionSet(two);
             ParseSelection(DottedOn(on) + one) == if sels.Ok? then Ok(Inline(on, ds, sels.value), sels.rest) else Err)
  {
    hide ParseDirectives, ParseSelectionSet;
    var ts := DottedOn(on) + one;
    assert ts[3..] == [Name("on"), Name(on)] + one;
    assert ts[3..][1..] == [Name(on)] + one;
    assert ts[3..][1..][1..] == one;
  }

  lemma InlineBack(s: Selection, rest: seq<Token>)
    requires s.Inline? && SelectionOk(s) && SelectionPrintable(s)
    ensures ParseSelection(PrintSelection(s) + rest) == Ok(s, rest)
    decreases s, 1
  {
    hide ParseDirectives, PrintDirectives, ParseSelectionSet, PrintSelectionSet, DirectivesOk, ParseSelection,
         PrintSelection;
    var two := PrintSelectionSet(s.selections) + rest;
    var one := PrintDirectives(s.directives) + two;
    InlinePrinted(s, rest);
    SetStarts(s.selections, rest);
    DirectivesBack(s.directives, two);
    SelectionSetBack(s.selections, rest);
    InlineSteps(s.on, one, s.directives, two);
  }

  lemma SetStarts(sels: seq<Selection>, rest: seq<Token>)
    requires sels != []
    ensures (var ts := PrintSelectionSet(sels) + rest; !Sees(ts, '@') && !Sees(ts, '(') && !SeesName(ts))
  {
    hide PrintSelections;
  }

  lemma OptionalSetBack(sels: seq<Selection>, rest: seq<Token>)
    requires SelectionsOk(sels) && SelectionsPrintable(sels) && !Sees(rest, '{')
    ensures ParseOptionalSelectionSet(PrintSelectionSet(sels) + rest) == Ok(sels, rest)
    decreases sels, 4
  {
    hide SelectionsOk, SelectionsPrintable, ParseSelectionSet;
    if sels == [] {
      assert [] + rest == rest;
    } else {
      SelectionSetBack(sels, rest);
    }
  }

  lemma SelectionSetBack(sels: seq<Selection>, rest: seq<Token>)
    requires SelectionsOk(sels) && SelectionsPrintable(sels) && sels != []
    ensures ParseSelectionSet(PrintSelectionSet(sels) + rest) == Ok(sels, rest)
    decreases sels, 3
  {
    hide ParseSelections, PrintSelections, SelectionsOk, SelectionsPrintable;
    assert (PrintSelectionSet(sels) + rest)[1..] == PrintSelections(sels) + ([Punct('}')] + rest);
    SelectionsBack(sels, rest);
  }

  lemma {:induction false} SelectionsBack(sels: seq<Selection>, rest: seq<Token>)
    requires SelectionsOk(sels) && SelectionsPrintable(sels)
    ensures ParseSelections(PrintSelections(sels) + ([Punct('}')] + rest)) == Ok(sels, rest)
    decreases sels, 2
  {
    hide ParseSelection, PrintSelection, SelectionOk, SelectionPrintable;
    var tail := [Punct('}')] + rest;
    if sels == [] {
      assert [] + tail == tail && tail[1..] == rest;
    } else {
      assert sels == [sels[0]] + sels[1..];
      var more := PrintSelections(sels[1..]) + tail;
      assert PrintSelections(sels) + tail == PrintSelection(sels[0]) + more;
      SelectionStarts(sels[0]);
      SeesFirst(PrintSelection(sels[0]), more, '}');
      SelectionsStop(sels[1..], tail);
      SelectionBack(sels[0], more);
      SelectionsBack(sels[1..], rest);
    }
  }

  lemma SelectionStarts(s: Selection)
    ensures PrintSelection(s) != [] && (PrintSelection(s)[0].Lit? || PrintSelection(s)[0] == Punct('.'))
  {
  }

  lemma SelectionsStop(sels: seq<Selection>, rest: seq<Token>)
    requires Stops(rest, FIELD_END)
    ensures Stops(PrintSelections(sels) + rest, FIELD_END)
  {
    hide PrintSelection;
    if sels == [] {
      assert [] + rest == rest;
    } else {
      SelectionStarts(sels[0]);
    }
  }

  // ----- definitions -----

  lemma NameBack(name: string, rest: seq<Token>)
    requires !SeesName(rest)
    ensures (if SeesName(PrintOptionalName(name) + rest) then ParseName(PrintOptionalName(name) + rest)
             else Ok("", PrintOptionalName(name) + rest)) == Ok(name, rest)
  {
    if name == "" {
      assert [] + rest == rest;
    } else {
      assert ([Name(name)] + rest)[1..] == rest;
    }
  }

  /** A part that starts with a punctuator does not look like a name. */
  lemma PartIsNoName(part: seq<Token>, rest: seq<Token>)
    requires (part == [] || part[0].Punct?) && !SeesName(rest)
    ensures !SeesName(part + rest)
  {
    if part == [] {
      assert part + rest == rest;
    }
  }

  lemma VariablesStart(vars: seq<InputValue>)
    ensures PrintVariables(vars) == [] || PrintVariables(vars)[0] == Punct('(')
    ensures vars == [] ==> PrintVariables(vars) == []
  {
  }

  lemma OperationPrinted(op: Operation, rest: seq<Token>)
    ensures PrintOperation(op) + rest ==
            [Name(OperationWord(op.op))] + (PrintOptionalName(op.name) +
            (PrintDirectives(op.directives) + (PrintVariables(op.vars) + (PrintSelectionSet(op.selections) + rest))))
  {
    hide PrintDirectives, PrintSelectionSet, PrintVariables, PrintOptionalName;
    var a, b, c, d, e := [Name(OperationWord(op.op))], PrintOptionalName(op.name), PrintDirectives(op.directives),
                         PrintVariables(op.vars), PrintSelectionSet(op.selections);
    assert PrintOperation(op) == a + b + c + d + e;
    Joined(a + b + c, d, e, rest);
    Joined(a, b, c, d + (e + rest));
  }

  /** The steps of reading an operation after its word, put together. */
  lemma OperationSteps(op: Operation, ts: seq<Token>, t1: seq<Token>, t2: seq<Token>)
    requires (if SeesName(ts) then ParseName(ts) else Ok("", ts)) == Ok(op.name, t1)
    requires ParseDirectives(t1) == Ok(op.directives, t2)
    ensures (var r := ParseDefinition([Name(OperationWord(op.op))] + ts);
             var vars := ParseOptionalVars(t2);
             r == if vars.Err? then Err
                  else
                    var sels := ParseSelectionSet(vars.rest);
                    if sels.Err? then Err
                    else Ok(Op(op.(vars := vars.value, selections := sels.value)), sels.rest))
  {
    hide ParseDirectives, ParseOptionalVars, ParseSelectionSet;
    assert ([Name(OperationWord(op.op))] + ts)[1..] == ts;
    OperationWords(op.op);
  }

  /** What comes after the name of an operation with selections. */
  lemma OperationParts(op: Operation, rest: seq<Token>)
    requires op.selections != []
    ensures (var three := PrintSelectionSet(op.selections) + rest;
             var two := PrintVariables(op.vars) + three;
             var one := PrintDirectives(op.directives) + two;
             && !Sees(three, '(') && !Sees(two, '@') && !SeesName(one) && (op.vars == [] ==> two == three))
  {
    hide PrintDirectives, PrintSelectionSet, PrintVariables;
    PartsStart([], op.directives, op.selections);
    VariablesStart(op.vars);
    SetStarts(op.selections, rest);
    var three := PrintSelectionSet(op.selections) + rest;
    var two := PrintVariables(op.vars) + three;
    PartIsNoName(PrintVariables(op.vars), three);
    PartIsNoName(PrintDirectives(op.directives), two);
    if op.vars == [] {
      assert two == three;
    }
  }

  lemma OperationBack(op: Operation, rest: seq<Token>)
    requires OperationOk(op) && OperationPrintable(op)
    ensures ParseDefinition(PrintOperation(op) + rest) == Ok(Op(op), rest)
  {
    hide ParseDirectives, PrintDirectives, ParseSelectionSet, PrintSelectionSet, ParseOptionalVars, PrintVariables,
         PrintOptionalName;
    hide EndsOpen, DirectivesOk, VariableOk, SelectionsOk, SelectionsPrintable, Sees, SeesName, ParseDefinition,
         PrintOperation, ParseName;
    var three := PrintSelectionSet(op.selections) + rest;
    var two := PrintVariables(op.vars) + three;
    var one := PrintDirectives(op.directives) + two;
    OperationPrinted(op, rest);
    OperationParts(op, rest);
    NameBack(op.name, one);
    DirectivesBack(op.directives, two);
    VariablesBack(op.vars, three);
    SelectionSetBack(op.selections, rest);
    OperationSteps(op, PrintOptionalName(op.name) + one, one, two);
  }

  lemma OperationWords(op: OperationType)
    ensures (OperationWord(op) == "query") <==> (op == QueryOp)
    ensures (OperationWord(op) == "mutation") <==> (op == MutationOp)
    ensures (OperationWord(op) == "subscription") <==> (op == SubscriptionOp)
    ensures OperationWord(op) != "fragment"
  {
    assert |"query"| == 5 && |"mutation"| == 8 && |"subscription"| == 12 && |"fragment"| == 8;
    assert "mutation"[0] != "fragment"[0];
  }

  function FragmentHead(f: Fragment): seq<Token> {
    [Name("fragment"), Name(f.name), Name("on"), Name(f.on)]
  }

  lemma FragmentPrinted(f: Fragment, rest: seq<Token>)
    requires f.name != "" && f.on != ""
    ensures PrintFragment(f) + rest ==
            FragmentHead(f) + (PrintDirectives(f.directives) + (PrintSelectionSet(f.selections) + rest))
  {
    hide PrintDirectives, PrintSelectionSet;
    var d, p := PrintDirectives(f.directives), PrintSelectionSet(f.selections);
    assert PrintFragment(f) == FragmentHead(f) + d + p;
    Joined(FragmentHead(f), d, p, rest);
  }

  /** The steps of reading a fragment, put together. */
  lemma FragmentSteps(f: Fragment, one: seq<Token>, two: seq<Token>)
    requires ParseDirectives(one) == Ok(f.directives, two)
    ensures (var sels := ParseSelectionSet(two);
             ParseDefinition(FragmentHead(f) + one) == if sels.Ok? then
               Ok(Frag(f.(selections := sels.value)), sels.rest) else Err)
  {
    hide ParseDirectives, ParseSelectionSet;
    var ts := FragmentHead(f) + one;
    assert ts[1..] == [Name(f.name), Name("on"), Name(f.on)] + one;
    assert ts[1..][1..] == [Name("on"), Name(f.on)] + one;
    assert ts[1..][1..][1..] == [Name(f.on)] + one;
    assert ts[1..][1..][1..][1..] == one;
    assert |"query"| == 5 && |"mutation"| == 8 && |"subscription"| == 12 && |"fragment"| == 8;
    assert "mutation"[0] != "fragment"[0];
  }

  lemma FragmentBack(f: Fragment, rest: seq<Token>)
    requires FragmentOk(f) && FragmentPrintable(f)
    ensures ParseDefinition(PrintFragment(f) + rest) == Ok(Frag(f), rest)
  {
    hide ParseDirectives, PrintDirectives, ParseSelectionSet, PrintSelectionSet, DirectivesOk, SelectionsOk,
         SelectionsPrintable;
    hide ParseDefinition, PrintFragment;
    var two := PrintSelectionSet(f.selections) + rest;
    var one := PrintDirectives(f.directives) + two;
    FragmentPrinted(f, rest);
    SetStarts(f.selections, rest);
    DirectivesBack(f.directives, two);
    SelectionSetBack(f.selections, rest);
    FragmentSteps(f, one, two);
  }

  lemma {:induction false} FragmentsBack(fs: seq<Fragment>, doc: Document)
    requires forall f :: f in fs ==> FragmentOk(f) && FragmentPrintable(f)
    ensures ParseDocument(PrintFragments(fs), doc) == Some(doc.(fragments := doc.fragments + fs))
    decreases fs
  {
    hide ParseDefinition, PrintFragment, FragmentOk, FragmentPrintable;
    if fs == [] {
      assert doc.fragments + fs == doc.fragments;
    } else {
      var rest := PrintFragments(fs[1..]);
      FragmentStarts(fs[0]);
      FragmentBack(fs[0], rest);
      var doc' := With(doc, Frag(fs[0]));
      FragmentsBack(fs[1..], doc');
      assert doc'.fragments + fs[1..] == doc.fragments + fs;
    }
  }

  lemma FragmentStarts(f: Fragment)
    ensures PrintFragment(f) != []
  {
  }

  lemma OperationStarts(op: Operation)
    ensures PrintOperation(op) != []
  {
  }

  lemma {:induction false} OperationsBack(ops: seq<Operation>, rest: seq<Token>, doc: Document)
    requires forall op :: op in ops ==> OperationOk(op) && OperationPrintable(op)
    ensures ParseDocument(PrintOperations(ops) + rest, doc) ==
            ParseDocument(rest, doc.(operations := doc.operations + ops))
    decreases ops
  {
    hide ParseDefinition, PrintOperation, OperationOk, OperationPrintable;
    if ops == [] {
      assert [] + rest == rest;
      assert doc.operations + ops == doc.operations;
    } else {
      var more := PrintOperations(ops[1..]) + rest;
      assert PrintOperations(ops) + rest == PrintOperation(ops[0]) + more;
      OperationStarts(ops[0]);
      OperationBack(ops[0], more);
      var doc' := With(doc, Op(ops[0]));
      OperationsBack(ops[1..], rest, doc');
      assert doc'.operations + ops[1..] == doc.operations + ops;
    }
  }

  /** Parsing the tokens printed for a document that the parser can produce and the printer can print gives it back. */
  lemma PrintedComesBack(doc: Document)
    requires DocumentOk(doc) && Printable(doc)
    ensures Parse(Print(doc)) == Some(doc)
  {
    hide PrintOperations, PrintFragments, ParseDocument, OperationOk, OperationPrintable, FragmentOk, FragmentPrintable;
    OperationsBack(doc.operations, PrintFragments(doc.fragments), Document([], []));
    assert [] + doc.operations == doc.operations;
    FragmentsBack(doc.fragments, Document(doc.operations, []));
    assert [] + doc.fragments == doc.fragments;
  }
}
