/**
 The printed form of a query document, as the sequence of its tokens.
 */
module Printing {
  import opened Wrappers
  import opened Query
  import opened Syntax

  function Name(s: string): Token {
    Lit(IdentLit, s)
  }

  /** A literal whose text starts with a minus is read as two tokens. */
  function PrintBasic(kind: LiteralKind, text: string): seq<Token> {
    if text != "" && text[0] == '-' then [Punct('-'), Lit(kind, text[1..])] else [Lit(kind, text)]
  }

  function PrintLiteral(lit: Literal): seq<Token> {
    match lit
    case BasicLit(kind, text) => PrintBasic(kind, text)
    case ListLit(entries) => [Punct('[')] + PrintEntries(entries) + [Punct(']')]
    case ObjectLit(fields) => [Punct('{')] + PrintFields(fields) + [Punct('}')]
    case NullLit => [Name("null")]
    case Variable(name) => [Punct('$'), Name(name)]
  }

  function PrintEntries(entries: seq<Literal>): seq<Token> {
    if entries == [] then [] else PrintLiteral(entries[0]) + PrintEntries(entries[1..])
  }

  function PrintFields(fields: seq<ObjectField>): seq<Token> {
    if fields == [] then []
    else [Name(fields[0].name), Punct(':')] + PrintLiteral(fields[0].value) + PrintFields(fields[1..])
  }

  function PrintArgument(arg: Argument): seq<Token> {
    [Name(arg.name), Punct(':')] + PrintLiteral(arg.value)
  }

  function PrintArgs(args: seq<Argument>): seq<Token> {
    if args == [] then [] else PrintArgument(args[0]) + PrintArgs(args[1..])
  }

  function PrintArguments(args: seq<Argument>): seq<Token> {
    if args == [] then [] else [Punct('(')] + PrintArgs(args) + [Punct(')')]
  }

  function PrintDirective(d: Directive): seq<Token> {
    [Punct('@'), Name(d.name)] + PrintArguments(d.args)
  }

  function PrintDirectives(ds: seq<Directive>): seq<Token> {
    if ds == [] then [] else PrintDirective(ds[0]) + PrintDirectives(ds[1..])
  }

  function PrintType(t: Type): seq<Token> {
    match t
    case Named(name) => [Name(name)]
    case ListOf(of) => [Punct('[')] + PrintType(of) + [Punct(']')]
    case NonNullOf(of) => PrintType(of) + [Punct('!')]
  }

  function PrintDefault(d: Option<Literal>): seq<Token> {
    if d.Some? then [Punct('=')] + PrintLiteral(d.value) else []
  }

  /** A name that starts with a dollar sign is read as two tokens. */
  function PrintVariableName(name: string): seq<Token> {
    if name != "" && name[0] == '$' then [Punct('$'), Name(name[1..])] else [Name(name)]
  }

  /** The directives of a variable are not printed. */
  function PrintVariable(v: InputValue): seq<Token> {
    PrintVariableName(v.name) + [Punct(':')] + PrintType(v.typ) + PrintDefault(v.default)
  }

  function PrintVars(vars: seq<InputValue>): seq<Token> {
    if vars == [] then [] else PrintVariable(vars[0]) + PrintVars(vars[1..])
  }

  function PrintVariables(vars: seq<InputValue>): seq<Token> {
    if vars == [] then [] else [Punct('(')] + PrintVars(vars) + [Punct(')')]
  }

  function PrintSelection(s: Selection): seq<Token>
    decreases s, 1
  {
    match s
    case Field(f) =>
      [Name(f.alias)] + (if f.name != f.alias then [Punct(':'), Name(f.name)] else []) +
      PrintArguments(f.args) + PrintDirectives(f.directives) + PrintSelectionSet(f.selections)
    case Spread(name, directives) =>
      [Punct('.'), Punct('.'), Punct('.'), Name(name)] + PrintDirectives(directives)
    case Inline(on, directives, sels) =>
      [Punct('.'), Punct('.'), Punct('.'), Name("on")] + PrintOptionalName(on) + PrintDirectives(directives) +
      PrintSelectionSet(sels)
  }

  /** An empty name leaves nothing to read. */
  function PrintOptionalName(name: string): seq<Token> {
    if name == "" then [] else [Name(name)]
  }

  function PrintSelections(sels: seq<Selection>): seq<Token>
    decreases sels, 0
  {
    if sels == [] then [] else PrintSelection(sels[0]) + PrintSelections(sels[1..])
  }

  /** An empty selection set is not printed. */
  function PrintSelectionSet(sels: seq<Selection>): seq<Token>
    decreases sels, 1
  {
    if sels == [] then [] else [Punct('{')] + PrintSelections(sels) + [Punct('}')]
  }

  function OperationWord(op: OperationType): string {
    match op
    case QueryOp => "query"
    case MutationOp => "mutation"
    case SubscriptionOp => "subscription"
  }

  function PrintOperation(op: Operation): seq<Token> {
    [Name(OperationWord(op.op))] + PrintOptionalName(op.name) + PrintDirectives(op.directives) +
    PrintVariables(op.vars) +
    PrintSelectionSet(op.selections)
  }

  function PrintFragment(f: Fragment): seq<Token> {
    [Name("fragment")] + PrintOptionalName(f.name) + [Name("on")] + PrintOptionalName(f.on) +
    PrintDirectives(f.directives) +
    PrintSelectionSet(f.selections)
  }

  function PrintOperations(ops: seq<Operation>): seq<Token> {
    if ops == [] then [] else PrintOperation(ops[0]) + PrintOperations(ops[1..])
  }

  function PrintFragments(fs: seq<Fragment>): seq<Token> {
    if fs == [] then [] else PrintFragment(fs[0]) + PrintFragments(fs[1..])
  }

  function Print(doc: Document): seq<Token> {
    PrintOperations(doc.operations) + PrintFragments(doc.fragments)
  }
}
