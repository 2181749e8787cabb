/**
 The grammar of query documents as the parser reads it, over the tokens that
 matter: white space, comments and commas are gone.  A function takes the tokens
 there are and gives what it read and the tokens left.
 */
module Syntax {
  import opened Wrappers
  import opened Query
  import opened Ordering

  /** A name is a literal of kind IdentLit. */
  datatype Token = Punct(ch: char) | Lit(kind: LiteralKind, text: string)

  datatype Parsed<T> = Ok(value: T, rest: seq<Token>) | Err

  predicate Sees(ts: seq<Token>, c: char) {
    ts != [] && ts[0] == Punct(c)
  }

  predicate SeesName(ts: seq<Token>) {
    ts != [] && ts[0].Lit? && ts[0].kind == IdentLit
  }

  function Expect(ts: seq<Token>, c: char): (r: Parsed<()>)
    ensures r.Ok? ==> |r.rest| < |ts|
  {
    if Sees(ts, c) then Ok((), ts[1..]) else Err
  }

  function ParseName(ts: seq<Token>): (r: Parsed<string>)
    ensures r.Ok? ==> |r.rest| < |ts|
  {
    if SeesName(ts) then Ok(ts[0].text, ts[1..]) else Err
  }

  // ----- literals -----

  predicate NameLess(a: ObjectField, b: ObjectField) {
    StringLess(a.name, b.name)
  }

  function InsertField(f: ObjectField, fields: seq<ObjectField>): seq<ObjectField> {
    if fields == [] || NameLess(f, fields[0]) then [f] + fields
    else [fields[0]] + InsertField(f, fields[1..])
  }

  /** The fields by name. */
  function SortFields(fields: seq<ObjectField>): seq<ObjectField> {
    if fields == [] then [] else InsertField(fields[|fields| - 1], SortFields(fields[..|fields| - 1]))
  }

  function ParseBasic(ts: seq<Token>): (r: Parsed<Literal>)
    ensures r.Ok? ==> |r.rest| < |ts|
  {
    if ts != [] && ts[0].Lit? then Ok(BasicLit(ts[0].kind, ts[0].text), ts[1..]) else Err
  }

  function Negative(p: Parsed<Literal>): Parsed<Literal> {
    if p.Ok? && p.value.BasicLit? then Ok(BasicLit(p.value.kind, "-" + p.value.text), p.rest) else Err
  }

  function ParseLiteral(ts: seq<Token>, constOnly: bool): (r: Parsed<Literal>)
    ensures r.Ok? ==> |r.rest| < |ts|
    decreases |ts|, 0
  {
    if ts == [] then Err
    else if ts[0].Lit? then
      if ts[0] == Lit(IdentLit, "null") then Ok(NullLit, ts[1..]) else ParseBasic(ts)
    else if ts[0].ch == '$' then
      if constOnly then Err
      else
        var name := ParseName(ts[1..]);
        if name.Ok? then Ok(Variable(name.value), name.rest) else Err
    else if ts[0].ch == '-' then Negative(ParseBasic(ts[1..]))
    else if ts[0].ch == '[' then
      var entries := ParseEntries(ts[1..], constOnly);
      if entries.Ok? then Ok(ListLit(entries.value), entries.rest) else Err
    else if ts[0].ch == '{' then
      var fields := ParseFields(ts[1..], constOnly);
      if fields.Ok? then Ok(ObjectLit(SortFields(fields.value)), fields.rest) else Err
    else Err
  }

  /** Put before what the rest yields. */
  function Before<T>(x: T, p: Parsed<seq<T>>): (r: Parsed<seq<T>>)
    ensures r.Ok? <==> p.Ok?
  {
    if p.Ok? then Ok([x] + p.value, p.rest) else Err
  }

  function ParseEntries(ts: seq<Token>, constOnly: bool): (r: Parsed<seq<Literal>>)
    ensures r.Ok? ==> |r.rest| < |ts|
    decreases |ts|, 1
  {
    if Sees(ts, ']') then Ok([], ts[1..])
    else
      var lit := ParseLiteral(ts, constOnly);
      if lit.Ok? then Before(lit.value, ParseEntries(lit.rest, constOnly)) else Err
  }

  function ParseObjectField(ts: seq<Token>, constOnly: bool): (r: Parsed<ObjectField>)
    ensures r.Ok? ==> |r.rest| < |ts|
    decreases |ts|, 1
  {
    var name := ParseName(ts);
    if name.Err? then Err
    else
      var colon := Expect(name.rest, ':');
      if colon.Err? then Err
      else
        var value := ParseLiteral(colon.rest, constOnly);
        if value.Ok? then Ok(ObjectField(name.value, value.value), value.rest) else Err
  }

  function ParseFields(ts: seq<Token>, constOnly: bool): (r: Parsed<seq<ObjectField>>)
    ensures r.Ok? ==> |r.rest| < |ts|
    decreases |ts|, 2
  {
    if Sees(ts, '}') then Ok([], ts[1..])
    else
      var f := ParseObjectField(ts, constOnly);
      if f.Ok? then Before(f.value, ParseFields(f.rest, constOnly)) else Err
  }

  // ----- arguments and directives -----

  function ParseArgument(ts: seq<Token>): (r: Parsed<Argument>)
    ensures r.Ok? ==> |r.rest| < |ts|
  {
    var name := ParseName(ts);
    if name.Err? then Err
    else
      var colon := Expect(name.rest, ':');
      if colon.Err? then Err
      else
        var value := ParseLiteral(colon.rest, false);
        if value.Ok? then Ok(Argument(name.value, value.value), value.rest) else Err
  }

  function ParseArgs(ts: seq<Token>): (r: Parsed<seq<Argument>>)
    ensures r.Ok? ==> |r.rest| < |ts|
    decreases |ts|
  {
    if Sees(ts, ')') then Ok([], ts[1..])
    else
      var arg := ParseArgument(ts);
      if arg.Ok? then Before(arg.value, ParseArgs(arg.rest)) else Err
  }

  function ParseArguments(ts: seq<Token>): (r: Parsed<seq<Argument>>)
    ensures r.Ok? ==> |r.rest| < |ts|
  {
    var open := Expect(ts, '(');
    if open.Ok? then ParseArgs(open.rest) else Err
  }

  /** Arguments, if there are any. */
  function ParseOptionalArguments(ts: seq<Token>): (r: Parsed<seq<Argument>>)
    ensures r.Ok? ==> |r.rest| <= |ts|
  {
    if Sees(ts, '(') then ParseArguments(ts) else Ok([], ts)
  }

  /** After the at sign. */
  function ParseDirective(ts: seq<Token>): (r: Parsed<Directive>)
    ensures r.Ok? ==> |r.rest| < |ts|
  {
    var name := ParseName(ts);
    if name.Err? then Err
    else
      var args := ParseOptionalArguments(name.rest);
      if args.Ok? then Ok(Directive(name.value, args.value), args.rest) else Err
  }

  function ParseDirectives(ts: seq<Token>): (r: Parsed<seq<Directive>>)
    ensures r.Ok? ==> |r.rest| <= |ts|
    decreases |ts|
  {
    if !Sees(ts, '@') then Ok([], ts)
    else
      var d := ParseDirective(ts[1..]);
      if d.Ok? then Before(d.value, ParseDirectives(d.rest)) else Err
  }

  // ----- types and variables -----

  function ParseType(ts: seq<Token>): (r: Parsed<Type>)
    ensures r.Ok? ==> |r.rest| < |ts|
    decreases |ts|, 1
  {
    var t := ParseNullType(ts);
    if t.Ok? && Sees(t.rest, '!') then Ok(NonNullOf(t.value), t.rest[1..]) else t
  }

  function ParseNullType(ts: seq<Token>): (r: Parsed<Type>)
    ensures r.Ok? ==> |r.rest| < |ts|
    decreases |ts|, 0
  {
    if Sees(ts, '[') then
      var of := ParseType(ts[1..]);
      if of.Err? then Err
      else
        var close := Expect(of.rest, ']');
        if close.Ok? then Ok(ListOf(of.value), close.rest) else Err
    else
      var name := ParseName(ts);
      if name.Ok? then Ok(Named(name.value), name.rest) else Err
  }

  /** A description is passed over. */
  function SkipDescription(ts: seq<Token>): (r: seq<Token>)
    ensures |r| <= |ts|
  {
    if ts != [] && ts[0].Lit? && (ts[0].kind == StringLit || ts[0].kind == BlockStringLit) then ts[1..] else ts
  }

  function ParseDefault(ts: seq<Token>): (r: Parsed<Option<Literal>>)
    ensures r.Ok? ==> |r.rest| <= |ts|
  {
    if !Sees(ts, '=') then Ok(None, ts)
    else
      var lit := ParseLiteral(ts[1..], true);
      if lit.Ok? then Ok(Some(lit.value), lit.rest) else Err
  }

  function ParseInputValue(ts: seq<Token>): (r: Parsed<InputValue>)
    ensures r.Ok? ==> |r.rest| < |ts|
  {
    var name := ParseName(SkipDescription(ts));
    if name.Err? then Err
    else
      var colon := Expect(name.rest, ':');
      if colon.Err? then Err
      else
        var typ := ParseType(colon.rest);
        if typ.Err? then Err
        else
          var default := ParseDefault(typ.rest);
          if default.Err? then Err
          else
            var directives := ParseDirectives(default.rest);
            if directives.Ok? then Ok(InputValue(name.value, typ.value, default.value, directives.value),
                                      directives.rest)
            else Err
  }

  /** A variable's name is kept with its dollar sign. */
  function ParseVariable(ts: seq<Token>): (r: Parsed<InputValue>)
    ensures r.Ok? ==> |r.rest| < |ts|
  {
    var dollar := Expect(ts, '$');
    if dollar.Err? then Err
    else
      var v := ParseInputValue(dollar.rest);
      if v.Ok? then Ok(v.value.(name := "$" + v.value.name), v.rest) else Err
  }

  function ParseVars(ts: seq<Token>): (r: Parsed<seq<InputValue>>)
    ensures r.Ok? ==> |r.rest| < |ts|
    decreases |ts|
  {
    if Sees(ts, ')') then Ok([], ts[1..])
    else
      var v := ParseVariable(ts);
      if v.Ok? then Before(v.value, ParseVars(v.rest)) else Err
  }

  function ParseOptionalVars(ts: seq<Token>): (r: Parsed<seq<InputValue>>)
    ensures r.Ok? ==> |r.rest| <= |ts|
  {
    if Sees(ts, '(') then ParseVars(ts[1..]) else Ok([], ts)
  }

  // ----- selections -----

  function ParseSelectionSet(ts: seq<Token>): (r: Parsed<seq<Selection>>)
    ensures r.Ok? ==> |r.rest| < |ts|
    decreases |ts|, 0
  {
    if Sees(ts, '{') then ParseSelections(ts[1..]) else Err
  }

  function ParseSelections(ts: seq<Token>): (r: Parsed<seq<Selection>>)
    ensures r.Ok? ==> |r.rest| < |ts|
    decreases |ts|, 4
  {
    if Sees(ts, '}') then Ok([], ts[1..])
    else
      var s := ParseSelection(ts);
      if s.Ok? then Before(s.value, ParseSelections(s.rest)) else Err
  }

  function ParseSelection(ts: seq<Token>): (r: Parsed<Selection>)
    ensures r.Ok? ==> |r.rest| < |ts|
    decreases |ts|, 3
  {
    if Sees(ts, '.') then ParseSpread(ts)
    else
      var f := ParseField(ts);
      if f.Ok? then Ok(Field(f.value), f.rest) else Err
  }

  /** The name after an alias and a colon; without a colon the alias is the name. */
  function ParseFieldName(ts: seq<Token>, alias: string): (r: Parsed<string>)
    ensures r.Ok? ==> |r.rest| <= |ts|
  {
    if Sees(ts, ':') then ParseName(ts[1..]) else Ok(alias, ts)
  }

  function ParseField(ts: seq<Token>): (r: Parsed<FieldSelection>)
    ensures r.Ok? ==> |r.rest| < |ts|
    decreases |ts|, 2
  {
    var alias := ParseName(ts);
    if alias.Err? then Err
    else
      var name := ParseFieldName(alias.rest, alias.value);
      if name.Err? then Err
      else
        var args := ParseOptionalArguments(name.rest);
        if args.Err? then Err
        else
          var directives := ParseDirectives(args.rest);
          if directives.Err? then Err
          else
            var sels := ParseOptionalSelectionSet(directives.rest);
            if sels.Err? then Err
            else Ok(FieldSelection(alias.value, name.value, args.value, directives.value, sels.value, None), sels.rest)
  }

  function ParseOptionalSelectionSet(ts: seq<Token>): (r: Parsed<seq<Selection>>)
    ensures r.Ok? ==> |r.rest| <= |ts|
    decreases |ts|, 1
  {
    if Sees(ts, '{') then ParseSelectionSet(ts) else Ok([], ts)
  }

  function ParseDots(ts: seq<Token>): (r: Parsed<()>)
    ensures r.Ok? ==> |r.rest| < |ts|
  {
    if |ts| >= 3 && ts[0] == ts[1] == ts[2] == Punct('.') then Ok((), ts[3..]) else Err
  }

  function ParseSpread(ts: seq<Token>): (r: Parsed<Selection>)
    ensures r.Ok? ==> |r.rest| < |ts|
    decreases |ts|, 2
  {
    var dots := ParseDots(ts);
    if dots.Err? then Err
    else if SeesName(dots.rest) && dots.rest[0].text != "on" then
      var directives := ParseDirectives(dots.rest[1..]);
      if directives.Ok? then Ok(Spread(dots.rest[0].text, directives.value), directives.rest) else Err
    else
      var on := if SeesName(dots.rest) then ParseName(dots.rest[1..]) else Ok("", dots.rest);
      if on.Err? then Err
      else
        var directives := ParseDirectives(on.rest);
        if directives.Err? then Err
        else
          var sels := ParseSelectionSet(directives.rest);
          if sels.Ok? then Ok(Inline(on.value, directives.value, sels.value), sels.rest) else Err
  }

  // ----- definitions -----

  function ParseOperation(ts: seq<Token>, op: OperationType): (r: Parsed<Operation>)
    ensures r.Ok? ==> |r.rest| < |ts|
  {
    var name := if SeesName(ts) then ParseName(ts) else Ok("", ts);
    if name.Err? then Err
    else
      var directives := ParseDirectives(name.rest);
      if directives.Err? then Err
      else
        var vars := ParseOptionalVars(directives.rest);
        if vars.Err? then Err
        else
          var sels := ParseSelectionSet(vars.rest);
          if sels.Ok? then Ok(Operation(op, name.value, vars.value, directives.value, sels.value), sels.rest) else Err
  }

  function ParseKeyword(ts: seq<Token>, word: string): (r: Parsed<()>)
    ensures r.Ok? ==> |r.rest| < |ts|
  {
    if SeesName(ts) && ts[0].text == word then Ok((), ts[1..]) else Err
  }

  function ParseFragment(ts: seq<Token>): (r: Parsed<Fragment>)
    ensures r.Ok? ==> |r.rest| < |ts|
  {
    var name := ParseName(ts);
    if name.Err? then Err
    else
      var on := ParseKeyword(name.rest, "on");
      if on.Err? then Err
      else
        var typ := ParseName(on.rest);
        if typ.Err? then Err
        else
          var directives := ParseDirectives(typ.rest);
          if directives.Err? then Err
          else
            var sels := ParseSelectionSet(directives.rest);
            if sels.Ok? then Ok(Fragment(name.value, typ.value, directives.value, sels.value), sels.rest) else Err
  }

  datatype Definition = Op(op: Operation) | Frag(fragment: Fragment)

  function AsOp(p: Parsed<Operation>): Parsed<Definition> {
    if p.Ok? then Ok(Op(p.value), p.rest) else Err
  }

  function AsFragment(p: Parsed<Fragment>): Parsed<Definition> {
    if p.Ok? then Ok(Frag(p.value), p.rest) else Err
  }

  function ParseDefinition(ts: seq<Token>): (r: Parsed<Definition>)
    ensures r.Ok? ==> |r.rest| < |ts|
  {
    if Sees(ts, '{') then
      var sels := ParseSelectionSet(ts);
      if sels.Ok? then Ok(Op(Operation(QueryOp, "", [], [], sels.value)), sels.rest) else Err
    else if !SeesName(ts) then Err
    else if ts[0].text == "query" then AsOp(ParseOperation(ts[1..], QueryOp))
    else if ts[0].text == "mutation" then AsOp(ParseOperation(ts[1..], MutationOp))
    else if ts[0].text == "subscription" then AsOp(ParseOperation(ts[1..], SubscriptionOp))
    else if ts[0].text == "fragment" then AsFragment(ParseFragment(ts[1..]))
    else Err
  }

  function With(doc: Document, d: Definition): Document {
    match d
    case Op(op) => doc.(operations := doc.operations + [op])
    case Frag(f) => doc.(fragments := doc.fragments + [f])
  }

  /** All definitions, added to those of `doc`. */
  function ParseDocument(ts: seq<Token>, doc: Document): Option<Document>
    decreases |ts|
  {
    if ts == [] then Some(doc)
    else
      var d := ParseDefinition(ts);
      if d.Ok? then ParseDocument(d.rest, With(doc, d.value)) else None
  }

  function Parse(ts: seq<Token>): Option<Document> {
    ParseDocument(ts, Document([], []))
  }
}
