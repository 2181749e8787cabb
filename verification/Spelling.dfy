/**
 Everything that may be written for a query document, and what it means: with or
 without empty parentheses and braces, colons, descriptions and names, in any
 order of fields and definitions.  The parser accepts just what is written so,
 and makes of it just what it means.
 */
module Spelling {
  import opened Wrappers
  import opened Query
  import opened Ordering
  import opened Syntax

  // ----- written forms -----

  datatype LiteralForm =
    | Word(kind: LiteralKind, text: string)
    | Negated(kind: LiteralKind, text: string)
    | NullWord
    | DollarName(name: string)
    | Bracketed(entries: seq<LiteralForm>)
    | Braced(fields: seq<NamedForm>)

  /** A field of an object, or an argument. */
  datatype NamedForm = NamedForm(name: string, value: LiteralForm)

  /** Arguments, perhaps none, in parentheses, or nothing. */
  datatype DirectiveForm = DirectiveForm(name: string, args: Option<seq<NamedForm>>)

  datatype InputForm = InputForm(
    description: Option<Token>, name: string, typ: Type, default: Option<LiteralForm>, directives: seq<DirectiveForm>)

  /** `name` is what stands behind a colon, and `on` what stands behind the word; a field has braces, or no
      selections. */
  datatype SelectionForm =
    | FieldForm(alias: string, name: Option<string>, args: Option<seq<NamedForm>>, directives: seq<DirectiveForm>,
                braces: bool, sels: seq<SelectionForm>)
    | SpreadForm(fragment: string, directives: seq<DirectiveForm>)
    | InlineForm(on: Option<string>, directives: seq<DirectiveForm>, sels: seq<SelectionForm>)

  datatype DefinitionForm =
    | Shorthand(sels: seq<SelectionForm>)
    | OperationForm(op: OperationType, name: Option<string>, directives: seq<DirectiveForm>,
                    vars: Option<seq<InputForm>>, sels: seq<SelectionForm>)
    | FragmentForm(fragment: string, on: string, directives: seq<DirectiveForm>, sels: seq<SelectionForm>)

  // ----- what is written, before `rest` -----

  function Name(s: string): Token {
    Lit(IdentLit, s)
  }

  function WriteLiteral(f: LiteralForm, rest: seq<Token>): seq<Token>
    decreases f, 0
  {
    match f
    case Word(kind, text) => [Lit(kind, text)] + rest
    case Negated(kind, text) => [Punct('-')] + ([Lit(kind, text)] + rest)
    case NullWord => [Name("null")] + rest
    case DollarName(name) => [Punct('$')] + ([Name(name)] + rest)
    case Bracketed(entries) => [Punct('[')] + WriteEntries(entries, [Punct(']')] + rest)
    case Braced(fields) => [Punct('{')] + WriteNamed(fields, [Punct('}')] + rest)
  }

  function WriteEntries(entries: seq<LiteralForm>, rest: seq<Token>): seq<Token>
    decreases entries, 1
  {
    if entries == [] then rest else WriteLiteral(entries[0], WriteEntries(entries[1..], rest))
  }

  function WriteOne(f: NamedForm, rest: seq<Token>): seq<Token>
    decreases f, 0
  {
    [Name(f.name)] + ([Punct(':')] + WriteLiteral(f.value, rest))
  }

  function WriteNamed(fields: seq<NamedForm>, rest: seq<Token>): seq<Token>
    decreases fields, 1
  {
    if fields == [] then rest else WriteOne(fields[0], WriteNamed(fields[1..], rest))
  }

  function WriteArguments(args: Option<seq<NamedForm>>, rest: seq<Token>): seq<Token> {
    match args
    case Some(named) => [Punct('(')] + WriteNamed(named, [Punct(')')] + rest)
    case None => rest
  }

  function WriteDirectives(ds: seq<DirectiveForm>, rest: seq<Token>): seq<Token> {
    if ds == [] then rest
    else [Punct('@')] + ([Name(ds[0].name)] + WriteArguments(ds[0].args, WriteDirectives(ds[1..], rest)))
  }

  function WriteType(t: Type, rest: seq<Token>): seq<Token> {
    match t
    case Named(name) => [Name(name)] + rest
    case ListOf(of) => [Punct('[')] + WriteType(of, [Punct(']')] + rest)
    case NonNullOf(of) => WriteType(of, [Punct('!')] + rest)
  }

  function WriteDefault(d: Option<LiteralForm>, rest: seq<Token>): seq<Token> {
    match d
    case Some(f) => [Punct('=')] + WriteLiteral(f, rest)
    case None => rest
  }

  function WriteDescription(d: Option<Token>, rest: seq<Token>): seq<Token> {
    match d
    case Some(t) => [t] + rest
    case None => rest
  }

  function WriteInput(v: InputForm, rest: seq<Token>): seq<Token> {
    [Punct('$')] +
    WriteDescription(v.description,
      [Name(v.name)] + ([Punct(':')] + WriteType(v.typ, WriteDefault(v.default, WriteDirectives(v.directives, rest)))))
  }

  function WriteInputs(vs: seq<InputForm>, rest: seq<Token>): seq<Token> {
    if vs == [] then rest else WriteInput(vs[0], WriteInputs(vs[1..], rest))
  }

  function WriteVariables(vars: Option<seq<InputForm>>, rest: seq<Token>): seq<Token> {
    match vars
    case Some(vs) => [Punct('(')] + WriteInputs(vs, [Punct(')')] + rest)
    case None => rest
  }

  function Dots(rest: seq<Token>): seq<Token> {
    [Punct('.'), Punct('.'), Punct('.')] + rest
  }

  function WriteOptional(before: seq<Token>, name: Option<string>, rest: seq<Token>): seq<Token> {
    match name
    case Some(s) => before + ([Name(s)] + rest)
    case None => rest
  }

  function WriteSelection(s: SelectionForm, rest: seq<Token>): seq<Token>
    decreases s, 0
  {
    match s
    case FieldForm(alias, name, args, directives, braces, sels) =>
      var end := if braces then WriteSet(sels, rest) else rest;
      [Name(alias)] + WriteOptional([Punct(':')], name, WriteArguments(args, WriteDirectives(directives, end)))
    case SpreadForm(fragment, directives) => Dots([Name(fragment)] + WriteDirectives(directives, rest))
    case InlineForm(on, directives, sels) =>
      Dots(WriteOptional([Name("on")], on, WriteDirectives(directives, WriteSet(sels, rest))))
  }

  function WriteSet(sels: seq<SelectionForm>, rest: seq<Token>): seq<Token>
    decreases sels, 2
  {
    [Punct('{')] + WriteSelections(sels, [Punct('}')] + rest)
  }

  function WriteSelections(sels: seq<SelectionForm>, rest: seq<Token>): seq<Token>
    decreases sels, 1
  {
    if sels == [] then rest else WriteSelection(sels[0], WriteSelections(sels[1..], rest))
  }

  function KeywordOf(op: OperationType): string {
    match op
    case QueryOp => "query"
    case MutationOp => "mutation"
    case SubscriptionOp => "subscription"
  }

  function WriteDefinition(d: DefinitionForm, rest: seq<Token>): seq<Token> {
    match d
    case Shorthand(sels) => WriteSet(sels, rest)
    case OperationForm(op, name, directives, vars, sels) =>
      [Name(KeywordOf(op))] +
      WriteOptional([], name, WriteDirectives(directives, WriteVariables(vars, WriteSet(sels, rest))))
    case FragmentForm(fragment, on, directives, sels) =>
      [Name("fragment")] +
      ([Name(fragment)] + ([Name("on")] + ([Name(on)] + WriteDirectives(directives, WriteSet(sels, rest)))))
  }

  function WriteDefinitions(ds: seq<DefinitionForm>): seq<Token> {
    if ds == [] then [] else WriteDefinition(ds[0], WriteDefinitions(ds[1..]))
  }

  // ----- what it means -----

  function MeantLiteral(f: LiteralForm): Literal
    decreases f, 0
  {
    match f
    case Word(kind, text) => BasicLit(kind, text)
    case Negated(kind, text) => BasicLit(kind, "-" + text)
    case NullWord => NullLit
    case DollarName(name) => Variable(name)
    case Bracketed(entries) => ListLit(MeantEntries(entries))
    case Braced(fields) => ObjectLit(SortFields(MeantFields(fields)))
  }

  function MeantEntries(entries: seq<LiteralForm>): seq<Literal>
    decreases entries, 1
  {
    if entries == [] then [] else [MeantLiteral(entries[0])] + MeantEntries(entries[1..])
  }

  function MeantFields(fields: seq<NamedForm>): seq<ObjectField>
    decreases fields, 1
  {
    if fields == [] then [] else [ObjectField(fields[0].name, MeantLiteral(fields[0].value))] + MeantFields(fields[1..])
  }

  function MeantArgs(args: seq<NamedForm>): seq<Argument> {
    if args == [] then [] else [Argument(args[0].name, MeantLiteral(args[0].value))] + MeantArgs(args[1..])
  }

  function MeantArguments(args: Option<seq<NamedForm>>): seq<Argument> {
    match args
    case Some(named) => MeantArgs(named)
    case None => []
  }

  function MeantDirectives(ds: seq<DirectiveForm>): seq<Directive> {
    if ds == [] then [] else [Directive(ds[0].name, MeantArguments(ds[0].args))] + MeantDirectives(ds[1..])
  }

  function MeantDefault(d: Option<LiteralForm>): Option<Literal> {
    match d
    case Some(f) => Some(MeantLiteral(f))
    case None => None
  }

  /** The description is dropped. */
  function MeantInputs(vs: seq<InputForm>): seq<InputValue> {
    if vs == [] then []
    else
      var v := vs[0];
      [InputValue("$" + v.name, v.typ, MeantDefault(v.default), MeantDirectives(v.directives))] + MeantInputs(vs[1..])
  }

  function MeantSelection(s: SelectionForm): Selection
    decreases s, 0
  {
    match s
    case FieldForm(alias, name, args, directives, _, sels) =>
      Field(FieldSelection(alias, if name.Some? then name.value else alias, MeantArguments(args),
                           MeantDirectives(directives), MeantSelections(sels), None))
    case SpreadForm(fragment, directives) => Spread(fragment, MeantDirectives(directives))
    case InlineForm(on, directives, sels) =>
      Inline(if on.Some? then on.value else "", MeantDirectives(directives), MeantSelections(sels))
  }

  function MeantSelections(sels: seq<SelectionForm>): seq<Selection>
    decreases sels, 1
  {
    if sels == [] then [] else [MeantSelection(sels[0])] + MeantSelections(sels[1..])
  }

  function MeantDefinition(d: DefinitionForm): Definition {
    match d
    case Shorthand(sels) => Op(Operation(QueryOp, "", [], [], MeantSelections(sels)))
    case OperationForm(op, name, directives, vars, sels) =>
      Op(Operation(op, if name.Some? then name.value else "", if vars.Some? then MeantInputs(vars.value) else [],
                   MeantDirectives(directives), MeantSelections(sels)))
    case FragmentForm(fragment, on, directives, sels) =>
      Frag(Fragment(fragment, on, MeantDirectives(directives), MeantSelections(sels)))
  }

  /** The operations and the fragments, each in the order they are written. */
  function MeantDocument(ds: seq<DefinitionForm>): Document {
    Document(MeantOperations(ds), MeantFragments(ds))
  }

  function MeantOperations(ds: seq<DefinitionForm>): seq<Operation> {
    if ds == [] then []
    else (match MeantDefinition(ds[0]) case Op(op) => [op] case Frag(_) => []) + MeantOperations(ds[1..])
  }

  function MeantFragments(ds: seq<DefinitionForm>): seq<Fragment> {
    if ds == [] then []
    else (match MeantDefinition(ds[0]) case Op(_) => [] case Frag(f) => [f]) + MeantFragments(ds[1..])
  }

  // ----- what may be written -----

  ghost predicate LiteralFits(f: LiteralForm, constOnly: bool) {
    match f
    case Word(kind, text) => !(kind == IdentLit && text == "null")
    case DollarName(_) => !constOnly
    case Bracketed(entries) => forall e :: e in entries ==> LiteralFits(e, constOnly)
    case Braced(fields) => forall f :: f in fields ==> LiteralFits(f.value, constOnly)
    case _ => true
  }

  ghost predicate ArgumentsFit(args: Option<seq<NamedForm>>) {
    args.Some? ==> forall a :: a in args.value ==> LiteralFits(a.value, false)
  }

  ghost predicate DirectivesFit(ds: seq<DirectiveForm>) {
    forall d :: d in ds ==> ArgumentsFit(d.args)
  }

  /** A type has no two marks in a row. */
  predicate TypeFits(t: Type) {
    match t
    case NonNullOf(of) => !of.NonNullOf? && TypeFits(of)
    case ListOf(of) => TypeFits(of)
    case Named(_) => true
  }

  predicate IsDescription(t: Token) {
    t.Lit? && (t.kind == StringLit || t.kind == BlockStringLit)
  }

  /** Descriptions are strings, and default values have no variables. */
  ghost predicate InputFits(v: InputForm) {
    && (v.description.Some? ==> IsDescription(v.description.value))
    && TypeFits(v.typ) && (v.default.Some? ==> LiteralFits(v.default.value, true)) && DirectivesFit(v.directives)
  }

  /** No fragment that is spread is called `on`. */
  ghost predicate SelectionFits(s: SelectionForm)
    decreases s, 0
  {
    match s
    case FieldForm(_, _, args, directives, braces, sels) =>
      ArgumentsFit(args) && DirectivesFit(directives) && SelectionsFit(sels) && (sels != [] ==> braces)
    case SpreadForm(fragment, directives) => fragment != "on" && DirectivesFit(directives)
    case InlineForm(_, directives, sels) => DirectivesFit(directives) && SelectionsFit(sels)
  }

  ghost predicate SelectionsFit(sels: seq<SelectionForm>)
    decreases sels, 1
  {
    forall s :: s in sels ==> SelectionFits(s)
  }

  /** Parentheses after directives belong to the last of them: variables need it to have its own. */
  ghost predicate DefinitionFits(d: DefinitionForm) {
    match d
    case Shorthand(sels) => SelectionsFit(sels)
    case OperationForm(_, _, directives, vars, sels) =>
      && DirectivesFit(directives) && SelectionsFit(sels)
      && (vars.Some? ==> (forall v :: v in vars.value ==> InputFits(v)) && !LeftOpen(directives))
    case FragmentForm(_, _, directives, sels) => DirectivesFit(directives) && SelectionsFit(sels)
  }

  predicate LeftOpen(ds: seq<DirectiveForm>) {
    ds != [] && ds[|ds| - 1].args.None?
  }

  /** The tokens are a way to write the document. */
  ghost predicate Spells(ts: seq<Token>, doc: Document) {
    exists ds: seq<DefinitionForm> ::
      (forall d :: d in ds ==> DefinitionFits(d)) && ts == WriteDefinitions(ds) && doc == MeantDocument(ds)
  }

  // ----- what is written is parsed -----

  lemma {:induction false} LiteralIsParsed(f: LiteralForm, constOnly: bool, rest: seq<Token>)
    requires LiteralFits(f, constOnly)
    ensures ParseLiteral(WriteLiteral(f, rest), constOnly) == Ok(MeantLiteral(f), rest)
    decreases f, 0
  {
    hide SortFields, WriteEntries, WriteNamed, ParseEntries, ParseFields, MeantEntries, MeantFields;
    match f
    case Bracketed(entries) => EntriesAreParsed(entries, constOnly, rest);
    case Braced(fields) => FieldsAreParsed(fields, constOnly, rest);
    case _ =>
  }

  lemma {:induction false} EntriesAreParsed(entries: seq<LiteralForm>, constOnly: bool, rest: seq<Token>)
    requires forall e :: e in entries ==> LiteralFits(e, constOnly)
    ensures ParseEntries(WriteEntries(entries, [Punct(']')] + rest), constOnly) == Ok(MeantEntries(entries), rest)
    decreases entries, 1
  {
    hide ParseLiteral, WriteLiteral, LiteralFits, MeantLiteral;
    if entries != [] {
      var more := WriteEntries(entries[1..], [Punct(']')] + rest);
      LiteralBegins(entries[0], more);
      LiteralIsParsed(entries[0], constOnly, more);
      EntriesAreParsed(entries[1..], constOnly, rest);
    }
  }

  lemma LiteralBegins(f: LiteralForm, rest: seq<Token>)
    ensures WriteLiteral(f, rest) != []
    ensures WriteLiteral(f, rest)[0].Punct? ==> WriteLiteral(f, rest)[0].ch in {'[', '{', '$', '-'}
  {
  }

  lemma {:induction false} FieldsAreParsed(fields: seq<NamedForm>, constOnly: bool, rest: seq<Token>)
    requires forall f :: f in fields ==> LiteralFits(f.value, constOnly)
    ensures ParseFields(WriteNamed(fields, [Punct('}')] + rest), constOnly) == Ok(MeantFields(fields), rest)
    decreases fields, 1
  {
    hide ParseLiteral, WriteLiteral, LiteralFits, MeantLiteral;
    if fields != [] {
      var more := WriteNamed(fields[1..], [Punct('}')] + rest);
      LiteralIsParsed(fields[0].value, constOnly, more);
      FieldsAreParsed(fields[1..], constOnly, rest);
    }
  }

  lemma {:induction false} ArgsAreParsed(args: seq<NamedForm>, rest: seq<Token>)
    requires forall f :: f in args ==> LiteralFits(f.value, false)
    ensures ParseArgs(WriteNamed(args, [Punct(')')] + rest)) == Ok(MeantArgs(args), rest)
  {
    hide ParseLiteral, WriteLiteral, LiteralFits, MeantLiteral;
    if args != [] {
      var more := WriteNamed(args[1..], [Punct(')')] + rest);
      LiteralIsParsed(args[0].value, false, more);
      ArgsAreParsed(args[1..], rest);
    }
  }

  lemma ArgumentsAreParsed(args: Option<seq<NamedForm>>, rest: seq<Token>)
    requires ArgumentsFit(args) && (args.None? ==> !Sees(rest, '('))
    ensures ParseOptionalArguments(WriteArguments(args, rest)) == Ok(MeantArguments(args), rest)
  {
    hide ParseArgs, WriteNamed, MeantArgs, LiteralFits;
    if args.Some? {
      ArgsAreParsed(args.value, rest);
    }
  }

  lemma {:induction false} DirectivesAreParsed(ds: seq<DirectiveForm>, rest: seq<Token>)
    requires DirectivesFit(ds) && !Sees(rest, '@') && (LeftOpen(ds) ==> !Sees(rest, '('))
    ensures ParseDirectives(WriteDirectives(ds, rest)) == Ok(MeantDirectives(ds), rest)
  {
    hide ParseOptionalArguments, WriteArguments, MeantArguments, ArgumentsFit;
    if ds != [] {
      var more := WriteDirectives(ds[1..], rest);
      assert ds[1..] != [] ==> LeftOpen(ds[1..]) == LeftOpen(ds);
      ArgumentsAreParsed(ds[0].args, more);
      DirectivesAreParsed(ds[1..], rest);
      var ts := WriteDirectives(ds, rest);
      assert ts[1..] == [Name(ds[0].name)] + WriteArguments(ds[0].args, more);
      assert ts[1..][1..] == WriteArguments(ds[0].args, more);
    }
  }

  lemma {:induction false} TypeIsParsed(t: Type, rest: seq<Token>)
    requires TypeFits(t) && !Sees(rest, '!')
    ensures ParseType(WriteType(t, rest)) == Ok(t, rest)
    decreases t, 1
  {
    hide ParseNullType;
    if t.NonNullOf? {
      NullTypeIsParsed(t.of, [Punct('!')] + rest);
    } else {
      NullTypeIsParsed(t, rest);
    }
  }

  lemma {:induction false} NullTypeIsParsed(t: Type, rest: seq<Token>)
    requires TypeFits(t) && !t.NonNullOf?
    ensures ParseNullType(WriteType(t, rest)) == Ok(t, rest)
    decreases t, 0
  {
    hide ParseType;
    match t
    case ListOf(of) =>
      TypeIsParsed(of, [Punct(']')] + rest);
      assert WriteType(t, rest)[1..] == WriteType(of, [Punct(']')] + rest);
    case Named(name) =>
  }

  lemma DefaultIsParsed(d: Option<LiteralForm>, rest: seq<Token>)
    requires (d.Some? ==> LiteralFits(d.value, true)) && !Sees(rest, '=')
    ensures ParseDefault(WriteDefault(d, rest)) == Ok(MeantDefault(d), rest)
  {
    hide ParseLiteral, WriteLiteral, LiteralFits, MeantLiteral;
    if d.Some? {
      LiteralIsParsed(d.value, true, rest);
    }
  }

  lemma DescriptionIsSkipped(d: Option<Token>, rest: seq<Token>)
    requires (d.Some? ==> IsDescription(d.value)) && SeesName(rest)
    ensures SkipDescription(WriteDescription(d, rest)) == rest
  {
  }

  function MeantInput(v: InputForm): InputValue {
    InputValue("$" + v.name, v.typ, MeantDefault(v.default), MeantDirectives(v.directives))
  }

  lemma InputIsParsed(v: InputForm, rest: seq<Token>)
    requires InputFits(v) && !Sees(rest, '!') && !Sees(rest, '=') && !Sees(rest, '@') && !Sees(rest, '(')
    ensures ParseVariable(WriteInput(v, rest)) == Ok(MeantInput(v), rest)
  {
    hide ParseType, WriteType, ParseDefault, ParseDirectives, MeantDefault, MeantDirectives, SkipDescription,
         WriteDescription, TypeFits, LiteralFits, DirectivesFit;
    hide WriteDefault, WriteDirectives;
    var four := WriteDirectives(v.directives, rest);
    var three := WriteDefault(v.default, four);
    var two := WriteType(v.typ, three);
    PartsBegin(v.default, v.directives, rest);
    DirectivesAreParsed(v.directives, rest);
    DefaultIsParsed(v.default, four);
    TypeIsParsed(v.typ, three);
    var one := [Name(v.name)] + ([Punct(':')] + two);
    DescriptionIsSkipped(v.description, one);
    assert one[1..] == [Punct(':')] + two && one[1..][1..] == two;
    assert WriteInput(v, rest)[1..] == WriteDescription(v.description, one);
  }

  lemma PartsBegin(d: Option<LiteralForm>, ds: seq<DirectiveForm>, rest: seq<Token>)
    requires !Sees(rest, '!') && !Sees(rest, '=')
    ensures !Sees(WriteDirectives(ds, rest), '=') && !Sees(WriteDefault(d, WriteDirectives(ds, rest)), '!')
  {
    hide WriteLiteral;
  }

  lemma {:induction false} InputsAreParsed(vs: seq<InputForm>, rest: seq<Token>)
    requires forall v :: v in vs ==> InputFits(v)
    ensures ParseVars(WriteInputs(vs, [Punct(')')] + rest)) == Ok(MeantInputs(vs), rest)
  {
    hide ParseVariable, InputFits, MeantDefault, MeantDirectives, WriteDescription;
    if vs != [] {
      var more := WriteInputs(vs[1..], [Punct(')')] + rest);
      InputIsParsed(vs[0], more);
      InputsAreParsed(vs[1..], rest);
    }
  }

  lemma VariablesAreParsed(vars: Option<seq<InputForm>>, rest: seq<Token>)
    requires (vars.Some? ==> forall v :: v in vars.value ==> InputFits(v)) && !Sees(rest, '(')
    ensures ParseOptionalVars(WriteVariables(vars, rest)) ==
            Ok(if vars.Some? then MeantInputs(vars.value) else [], rest)
  {
    hide ParseVars, WriteInputs, MeantInputs, InputFits;
    if vars.Some? {
      InputsAreParsed(vars.value, rest);
    }
  }

  /** What cannot follow a selection. */
  predicate EndsField(rest: seq<Token>) {
    !Sees(rest, ':') && !Sees(rest, '(') && !Sees(rest, '@') && !Sees(rest, '{')
  }

  lemma {:induction false} SelectionIsParsed(s: SelectionForm, rest: seq<Token>)
    requires SelectionFits(s) && EndsField(rest)
    ensures ParseSelection(WriteSelection(s, rest)) == Ok(MeantSelection(s), rest)
    decreases s, 3
  {
    hide ParseField, ParseSpread, SelectionFits, WriteOptional, WriteDirectives, MeantArguments, MeantDirectives;
    match s
    case FieldForm(_, _, _, _, _, _) => FieldIsParsed(s, rest);
    case SpreadForm(_, _) => SpreadIsParsed(s, rest);
    case InlineForm(_, _, _) => InlineIsParsed(s, rest);
  }

  lemma FieldIsParsed(s: SelectionForm, rest: seq<Token>)
    requires s.FieldForm? && SelectionFits(s) && EndsField(rest)
    ensures MeantSelection(s).Field? && ParseField(WriteSelection(s, rest)) == Ok(MeantSelection(s).field, rest)
    decreases s, 2
  {
    hide ParseOptionalArguments, ParseDirectives, WriteArguments, WriteDirectives, MeantArguments, MeantDirectives,
         ArgumentsFit, DirectivesFit, WriteSet, ParseOptionalSelectionSet;
    var four := if s.braces then WriteSet(s.sels, rest) else rest;
    var three := WriteDirectives(s.directives, four);
    var two := WriteArguments(s.args, three);
    var one := WriteOptional([Punct(':')], s.name, two);
    SetIsParsed(s.braces, s.sels, rest);
    FieldPartsBegin(s.args, s.directives, four);
    DirectivesAreParsed(s.directives, four);
    ArgumentsAreParsed(s.args, three);
    assert ([Name(s.alias)] + one)[1..] == one;
    if s.name.Some? {
      assert one[1..] == [Name(s.name.value)] + two && one[1..][1..] == two;
    }
  }

  lemma FieldPartsBegin(args: Option<seq<NamedForm>>, ds: seq<DirectiveForm>, rest: seq<Token>)
    requires !Sees(rest, ':') && !Sees(rest, '(')
    ensures !Sees(WriteDirectives(ds, rest), '(') && !Sees(WriteDirectives(ds, rest), ':')
    ensures !Sees(WriteArguments(args, WriteDirectives(ds, rest)), ':')
  {
  }

  lemma {:induction false} SetIsParsed(braces: bool, sels: seq<SelectionForm>, rest: seq<Token>)
    requires SelectionsFit(sels) && (sels != [] ==> braces) && (Sees(rest, '{') ==> braces)
    ensures (var ts := if braces then WriteSet(sels, rest) else rest;
             && ParseOptionalSelectionSet(ts) == Ok(MeantSelections(sels), rest)
             && (braces ==> ParseSelectionSet(ts) == Ok(MeantSelections(sels), rest))
             && (EndsField(rest) ==> !Sees(ts, ':') && !Sees(ts, '(') && !Sees(ts, '@')))
    decreases sels, 1
  {
    hide ParseSelections, WriteSelections, SelectionsFit;
    if braces {
      SelectionsAreParsed(sels, rest);
    }
  }

  lemma {:induction false} SelectionsAreParsed(sels: seq<SelectionForm>, rest: seq<Token>)
    requires SelectionsFit(sels)
    ensures ParseSelections(WriteSelections(sels, [Punct('}')] + rest)) == Ok(MeantSelections(sels), rest)
    decreases sels, 0
  {
    hide ParseSelection, SelectionFits, WriteSelection, MeantSelection;
    if sels != [] {
      var more := WriteSelections(sels[1..], [Punct('}')] + rest);
      SelectionsBegin(sels[1..], [Punct('}')] + rest);
      SelectionBegins(sels[0], more);
      SelectionIsParsed(sels[0], more);
      SelectionsAreParsed(sels[1..], rest);
    }
  }

  lemma SelectionBegins(s: SelectionForm, rest: seq<Token>)
    ensures !Sees(WriteSelection(s, rest), '}') && EndsField(WriteSelection(s, rest))
  {
    hide WriteOptional, WriteDirectives, WriteArguments, WriteSet;
  }

  lemma SelectionsBegin(sels: seq<SelectionForm>, rest: seq<Token>)
    requires Sees(rest, '}')
    ensures EndsField(WriteSelections(sels, rest))
  {
    hide WriteSelection;
    if sels != [] {
      SelectionBegins(sels[0], WriteSelections(sels[1..], rest));
    }
  }

  lemma DotsAreParsed(rest: seq<Token>)
    ensures ParseDots(Dots(rest)) == Ok((), rest) && Sees(Dots(rest), '.')
  {
    assert Dots(rest)[3..] == rest;
  }

  lemma SpreadIsParsed(s: SelectionForm, rest: seq<Token>)
    requires s.SpreadForm? && SelectionFits(s) && EndsField(rest)
    ensures ParseSpread(WriteSelection(s, rest)) == Ok(MeantSelection(s), rest) && Sees(WriteSelection(s, rest), '.')
  {
    hide ParseDirectives, WriteDirectives, MeantDirectives, DirectivesFit, ParseDots, Dots;
    var one := WriteDirectives(s.directives, rest);
    DirectivesAreParsed(s.directives, rest);
    DotsAreParsed([Name(s.fragment)] + one);
    assert ([Name(s.fragment)] + one)[1..] == one;
  }

  lemma InlineIsParsed(s: SelectionForm, rest: seq<Token>)
    requires s.InlineForm? && SelectionFits(s) && EndsField(rest)
    ensures ParseSpread(WriteSelection(s, rest)) == Ok(MeantSelection(s), rest) && Sees(WriteSelection(s, rest), '.')
    decreases s, 2
  {
    hide ParseDirectives, WriteDirectives, MeantDirectives, DirectivesFit, ParseDots, Dots, ParseSelectionSet,
         ParseOptionalSelectionSet, WriteSet;
    var two := WriteSet(s.sels, rest);
    var one := WriteDirectives(s.directives, two);
    SetIsParsed(true, s.sels, rest);
    SetBegins(s.directives, s.sels, rest);
    DirectivesAreParsed(s.directives, two);
    var zero := WriteOptional([Name("on")], s.on, one);
    DotsAreParsed(zero);
    if s.on.Some? {
      assert zero[1..] == [Name(s.on.value)] + one && zero[1..][1..] == one;
    }
  }

  lemma SetBegins(ds: seq<DirectiveForm>, sels: seq<SelectionForm>, rest: seq<Token>)
    ensures Sees(WriteSet(sels, rest), '{') && !SeesName(WriteDirectives(ds, WriteSet(sels, rest)))
  {
    hide WriteSelections;
  }

  // ----- definitions -----

  lemma OperationIsParsed(d: DefinitionForm, rest: seq<Token>)
    requires d.OperationForm? && DefinitionFits(d)
    ensures (var one := WriteOptional([], d.name, WriteDirectives(d.directives,
               WriteVariables(d.vars, WriteSet(d.sels, rest))));
             AsOp(ParseOperation(one, d.op)) == Ok(MeantDefinition(d), rest))
  {
    hide ParseSelectionSet, ParseOptionalSelectionSet, WriteSet, ParseDirectives, WriteDirectives, ParseOptionalVars,
         WriteVariables, MeantInputs, MeantDirectives, SelectionsFit, DirectivesFit, InputFits, MeantSelections;
    var three := WriteSet(d.sels, rest);
    var two := WriteVariables(d.vars, three);
    var one := WriteDirectives(d.directives, two);
    SetIsParsed(true, d.sels, rest);
    OperationPartsBegin(d, rest);
    VariablesAreParsed(d.vars, three);
    DirectivesAreParsed(d.directives, two);
    if d.name.Some? {
      assert [] + ([Name(d.name.value)] + one) == [Name(d.name.value)] + one;
      assert ([Name(d.name.value)] + one)[1..] == one;
    }
  }

  lemma OperationPartsBegin(d: DefinitionForm, rest: seq<Token>)
    requires d.OperationForm?
    ensures (var three := WriteSet(d.sels, rest);
             var two := WriteVariables(d.vars, three);
             && !Sees(three, '(') && !Sees(two, '@') && (d.vars.None? ==> !Sees(two, '('))
             && !SeesName(WriteDirectives(d.directives, two)))
  {
    hide WriteSelections, WriteInputs;
  }

  lemma FragmentIsParsed(d: DefinitionForm, rest: seq<Token>)
    requires d.FragmentForm? && DefinitionFits(d)
    ensures (var one := WriteDirectives(d.directives, WriteSet(d.sels, rest));
             AsFragment(ParseFragment([Name(d.fragment)] + ([Name("on")] + ([Name(d.on)] + one)))) ==
             Ok(MeantDefinition(d), rest))
  {
    hide ParseSelectionSet, ParseOptionalSelectionSet, WriteSet, ParseDirectives, WriteDirectives, MeantDirectives,
         SelectionsFit, DirectivesFit, MeantSelections;
    var two := WriteSet(d.sels, rest);
    var one := WriteDirectives(d.directives, two);
    SetIsParsed(true, d.sels, rest);
    SetBegins([], d.sels, rest);
    assert Sees(two, '{');
    DirectivesAreParsed(d.directives, two);
    var on := [Name("on")] + ([Name(d.on)] + one);
    assert ([Name(d.fragment)] + on)[1..] == on;
    assert on[1..] == [Name(d.on)] + one && on[1..][1..] == one;
  }

  lemma DefinitionIsParsed(d: DefinitionForm, rest: seq<Token>)
    requires DefinitionFits(d)
    ensures ParseDefinition(WriteDefinition(d, rest)) == Ok(MeantDefinition(d), rest)
  {
    hide ParseSelectionSet, ParseOptionalSelectionSet, WriteSet, ParseOperation, ParseFragment, MeantSelections,
         SelectionsFit, DirectivesFit, InputFits, WriteOptional, WriteDirectives, WriteVariables, MeantDirectives;
    match d
    case Shorthand(sels) =>
      SetIsParsed(true, sels, rest);
      SetBegins([], sels, rest);
      assert Sees(WriteSet(sels, rest), '{');
    case OperationForm(op, name, directives, vars, sels) =>
      OperationIsParsed(d, rest);
      var one := WriteOptional([], name, WriteDirectives(directives, WriteVariables(vars, WriteSet(sels, rest))));
      assert ([Name(KeywordOf(op))] + one)[1..] == one;
    case FragmentForm(fragment, on, directives, sels) =>
      FragmentIsParsed(d, rest);
      var one := [Name(fragment)] + ([Name("on")] + ([Name(on)] + WriteDirectives(directives, WriteSet(sels, rest))));
      assert ([Name("fragment")] + one)[1..] == one;
  }

  /** Put behind what has been read. */
  function Joined(doc: Document, more: Document): Document {
    Document(doc.operations + more.operations, doc.fragments + more.fragments)
  }

  lemma {:induction false} DefinitionsAreParsed(ds: seq<DefinitionForm>, doc: Document)
    requires forall d :: d in ds ==> DefinitionFits(d)
    ensures ParseDocument(WriteDefinitions(ds), doc) == Some(Joined(doc, MeantDocument(ds)))
  {
    hide ParseDefinition, WriteDefinition, MeantDefinition, DefinitionFits;
    if ds == [] {
      assert Joined(doc, MeantDocument(ds)) == doc;
    } else {
      var rest := WriteDefinitions(ds[1..]);
      DefinitionIsParsed(ds[0], rest);
      DefinitionBegins(ds[0], rest);
      var next := With(doc, MeantDefinition(ds[0]));
      DefinitionsAreParsed(ds[1..], next);
      assert Joined(next, MeantDocument(ds[1..])) == Joined(doc, MeantDocument(ds));
    }
  }

  lemma DefinitionBegins(d: DefinitionForm, rest: seq<Token>)
    ensures WriteDefinition(d, rest) != []
  {
    hide WriteSelections;
  }
}
