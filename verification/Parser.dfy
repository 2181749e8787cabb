/**
 The recursive-descent parser: it moves a lexer over the tokens and appends what
 it reads to lists.  A syntax error ends the whole; here a method then returns
 None, and so does its caller.
 */
module Parser {
  import opened Wrappers
  import opened Query
  import opened Syntax
  import Spelling
  import Accepted

  function Yields<T>(r: Option<T>, rest: seq<Token>): Parsed<T> {
    if r.Some? then Ok(r.value, rest) else Err
  }

  /** Put after what was read before. */
  function After<T>(list: seq<T>, p: Parsed<seq<T>>): Parsed<seq<T>> {
    if p.Ok? then Ok(list + p.value, p.rest) else Err
  }

  lemma AfterOne<T>(list: seq<T>, x: T, p: Parsed<seq<T>>)
    ensures After(list, Before(x, p)) == After(list + [x], p)
  {
    if p.Ok? {
      assert list + ([x] + p.value) == (list + [x]) + p.value;
    }
  }

  lemma AfterNone<T>(p: Parsed<seq<T>>)
    ensures After([], p) == p
  {
    if p.Ok? {
      assert [] + p.value == p.value;
    }
  }

  lemma AfterAll<T>(list: seq<T>, rest: seq<Token>)
    ensures After(list, Ok([], rest)) == Ok(list, rest)
  {
    assert list + [] == list;
  }

  class Lexer {
    /** The tokens not yet consumed; the first is looked at. */
    var rest: seq<Token>

    constructor (tokens: seq<Token>)
      ensures rest == tokens
    {
      rest := tokens;
    }

    method ConsumeToken(c: char) returns (r: Option<()>)
      modifies this
      ensures Yields(r, rest) == Expect(old(rest), c)
    {
      if !Sees(rest, c) {
        return None;
      }
      rest := rest[1..];
      r := Some(());
    }

    method ConsumeIdent() returns (r: Option<string>)
      modifies this
      ensures Yields(r, rest) == ParseName(old(rest))
    {
      if !SeesName(rest) {
        return None;
      }
      r := Some(rest[0].text);
      rest := rest[1..];
    }

    method ConsumeKeyword(word: string) returns (r: Option<()>)
      modifies this
      ensures Yields(r, rest) == ParseKeyword(old(rest), word)
    {
      if !SeesName(rest) || rest[0].text != word {
        return None;
      }
      rest := rest[1..];
      r := Some(());
    }

    method ConsumeLiteral() returns (r: Option<Literal>)
      modifies this
      ensures Yields(r, rest) == ParseBasic(old(rest))
    {
      if rest == [] || !rest[0].Lit? {
        return None;
      }
      r := Some(BasicLit(rest[0].kind, rest[0].text));
      rest := rest[1..];
    }

    method ConsumeDescription()
      modifies this
      ensures rest == SkipDescription(old(rest))
    {
      if rest != [] && rest[0].Lit? && (rest[0].kind == StringLit || rest[0].kind == BlockStringLit) {
        rest := rest[1..];
      }
    }

    // ----- literals -----

    method ParseLit(constOnly: bool) returns (r: Option<Literal>)
      modifies this
      ensures Yields(r, rest) == ParseLiteral(old(rest), constOnly)
      decreases |rest|, 0
    {
      hide ParseEntries, ParseFields, SortFields;
      if rest == [] {
        return None;
      }
      if rest[0].Lit? {
        if rest[0] == Lit(IdentLit, "null") {
          rest := rest[1..];
          return Some(NullLit);
        }
        r := ConsumeLiteral();
        return;
      }
      var c := rest[0].ch;
      if c == '$' {
        if constOnly {
          return None;
        }
        rest := rest[1..];
        var name := ConsumeIdent();
        if name.None? {
          return None;
        }
        r := Some(Variable(name.value));
      } else if c == '-' {
        rest := rest[1..];
        var lit := ConsumeLiteral();
        if lit.None? || !lit.value.BasicLit? {
          return None;
        }
        r := Some(BasicLit(lit.value.kind, "-" + lit.value.text));
      } else if c == '[' {
        rest := rest[1..];
        var entries := ParseListEntries(constOnly);
        if entries.None? {
          return None;
        }
        r := Some(ListLit(entries.value));
      } else if c == '{' {
        rest := rest[1..];
        var fields := ParseObjectFields(constOnly);
        if fields.None? {
          return None;
        }
        r := Some(ObjectLit(SortFields(fields.value)));
      } else {
        r := None;
      }
    }

    method ParseListEntries(constOnly: bool) returns (r: Option<seq<Literal>>)
      modifies this
      ensures Yields(r, rest) == ParseEntries(old(rest), constOnly)
      decreases |rest|, 1
    {
      hide ParseLiteral;
      var list: seq<Literal> := [];
      AfterNone(ParseEntries(rest, constOnly));
      while !Sees(rest, ']')
        invariant |rest| <= |old(rest)|
        invariant ParseEntries(old(rest), constOnly) == After(list, ParseEntries(rest, constOnly))
        decreases |rest|
      {
        var x := ParseLit(constOnly);
        if x.None? {
          return None;
        }
        AfterOne(list, x.value, ParseEntries(rest, constOnly));
        list := list + [x.value];
      }
      rest := rest[1..];
      AfterAll(list, rest);
      r := Some(list);
    }

    method ParseObjectFields(constOnly: bool) returns (r: Option<seq<ObjectField>>)
      modifies this
      ensures Yields(r, rest) == ParseFields(old(rest), constOnly)
      decreases |rest|, 1
    {
      hide ParseLiteral, ParseName, Expect;
      var list: seq<ObjectField> := [];
      AfterNone(ParseFields(rest, constOnly));
      while !Sees(rest, '}')
        invariant |rest| <= |old(rest)|
        invariant ParseFields(old(rest), constOnly) == After(list, ParseFields(rest, constOnly))
        decreases |rest|
      {
        var name := ConsumeIdent();
        if name.None? {
          return None;
        }
        var colon := ConsumeToken(':');
        if colon.None? {
          return None;
        }
        var value := ParseLit(constOnly);
        if value.None? {
          return None;
        }
        var f := ObjectField(name.value, value.value);
        AfterOne(list, f, ParseFields(rest, constOnly));
        list := list + [f];
      }
      rest := rest[1..];
      AfterAll(list, rest);
      r := Some(list);
    }

    // ----- arguments and directives -----

    method ParseArgumentList() returns (r: Option<seq<Argument>>)
      modifies this
      ensures Yields(r, rest) == ParseArguments(old(rest))
    {
      hide ParseLiteral, ParseName;
      var open := ConsumeToken('(');
      if open.None? {
        return None;
      }
      ghost var start := rest;
      var args: seq<Argument> := [];
      AfterNone(ParseArgs(rest));
      while !Sees(rest, ')')
        invariant ParseArgs(start) == After(args, ParseArgs(rest))
        decreases |rest|
      {
        var name := ConsumeIdent();
        if name.None? {
          return None;
        }
        var colon := ConsumeToken(':');
        if colon.None? {
          return None;
        }
        var value := ParseLit(false);
        if value.None? {
          return None;
        }
        AfterOne(args, Argument(name.value, value.value), ParseArgs(rest));
        args := args + [Argument(name.value, value.value)];
      }
      rest := rest[1..];
      AfterAll(args, rest);
      r := Some(args);
    }

    method ParseDirectiveList() returns (r: Option<seq<Directive>>)
      modifies this
      ensures Yields(r, rest) == ParseDirectives(old(rest))
    {
      hide ParseArguments, ParseName;
      var directives: seq<Directive> := [];
      AfterNone(ParseDirectives(rest));
      while Sees(rest, '@')
        invariant ParseDirectives(old(rest)) == After(directives, ParseDirectives(rest))
        decreases |rest|
      {
        rest := rest[1..];
        var name := ConsumeIdent();
        if name.None? {
          return None;
        }
        var args: Option<seq<Argument>> := Some([]);
        if Sees(rest, '(') {
          args := ParseArgumentList();
          if args.None? {
            return None;
          }
        }
        AfterOne(directives, Directive(name.value, args.value), ParseDirectives(rest));
        directives := directives + [Directive(name.value, args.value)];
      }
      AfterAll(directives, rest);
      r := Some(directives);
    }

    // ----- types and variables -----

    method ParseTypeRef() returns (r: Option<Type>)
      modifies this
      ensures Yields(r, rest) == ParseType(old(rest))
      decreases |rest|, 1
    {
      hide ParseNullType;
      r := ParseNullTypeRef();
      if r.Some? && Sees(rest, '!') {
        rest := rest[1..];
        r := Some(NonNullOf(r.value));
      }
    }

    method ParseNullTypeRef() returns (r: Option<Type>)
      modifies this
      ensures Yields(r, rest) == ParseNullType(old(rest))
      decreases |rest|, 0
    {
      hide ParseType;
      if Sees(rest, '[') {
        rest := rest[1..];
        var of := ParseTypeRef();
        if of.None? {
          return None;
        }
        var close := ConsumeToken(']');
        if close.None? {
          return None;
        }
        return Some(ListOf(of.value));
      }
      var name := ConsumeIdent();
      if name.None? {
        return None;
      }
      r := Some(Named(name.value));
    }

    method ParseInputVal() returns (r: Option<InputValue>)
      modifies this
      ensures Yields(r, rest) == ParseInputValue(old(rest))
    {
      hide ParseName, Expect, ParseType, ParseLiteral, ParseDirectives, SkipDescription;
      ConsumeDescription();
      var name := ConsumeIdent();
      if name.None? {
        return None;
      }
      var colon := ConsumeToken(':');
      if colon.None? {
        return None;
      }
      var typ := ParseTypeRef();
      if typ.None? {
        return None;
      }
      var default: Option<Literal> := None;
      if Sees(rest, '=') {
        rest := rest[1..];
        default := ParseLit(true);
        if default.None? {
          return None;
        }
      }
      var directives := ParseDirectiveList();
      if directives.None? {
        return None;
      }
      r := Some(InputValue(name.value, typ.value, default, directives.value));
    }

    method ParseVariables() returns (r: Option<seq<InputValue>>)
      requires Sees(rest, '(')
      modifies this
      ensures Yields(r, rest) == ParseVars(old(rest[1..]))
    {
      hide ParseInputValue;
      rest := rest[1..];
      ghost var start := rest;
      var vars: seq<InputValue> := [];
      AfterNone(ParseVars(rest));
      while !Sees(rest, ')')
        invariant ParseVars(start) == After(vars, ParseVars(rest))
        decreases |rest|
      {
        var dollar := ConsumeToken('$');
        if dollar.None? {
          return None;
        }
        var v := ParseInputVal();
        if v.None? {
          return None;
        }
        AfterOne(vars, v.value.(name := "$" + v.value.name), ParseVars(rest));
        vars := vars + [v.value.(name := "$" + v.value.name)];
      }
      rest := rest[1..];
      AfterAll(vars, rest);
      r := Some(vars);
    }

    // ----- selections -----

    method ParseSet() returns (r: Option<seq<Selection>>)
      modifies this
      ensures Yields(r, rest) == ParseSelectionSet(old(rest))
      decreases |rest|, 0
    {
      hide ParseSelection;
      var open := ConsumeToken('{');
      if open.None? {
        return None;
      }
      ghost var start := rest;
      var sels: seq<Selection> := [];
      AfterNone(ParseSelections(rest));
      while !Sees(rest, '}')
        invariant |rest| <= |start|
        invariant ParseSelections(start) == After(sels, ParseSelections(rest))
        decreases |rest|
      {
        var s := ParseSel();
        if s.None? {
          return None;
        }
        AfterOne(sels, s.value, ParseSelections(rest));
        sels := sels + [s.value];
      }
      rest := rest[1..];
      AfterAll(sels, rest);
      r := Some(sels);
    }

    method ParseSel() returns (r: Option<Selection>)
      modifies this
      ensures Yields(r, rest) == ParseSelection(old(rest))
      decreases |rest|, 3
    {
      hide ParseSpread, ParseField;
      if Sees(rest, '.') {
        r := ParseDotted();
        return;
      }
      var f := ParseFieldSelection();
      if f.None? {
        return None;
      }
      r := Some(Field(f.value));
    }

    method ParseFieldSelection() returns (r: Option<FieldSelection>)
      modifies this
      ensures Yields(r, rest) == ParseField(old(rest))
      decreases |rest|, 2
    {
      hide ParseName, ParseArguments, ParseDirectives, ParseSelectionSet;
      var alias := ConsumeIdent();
      if alias.None? {
        return None;
      }
      var name := alias;
      if Sees(rest, ':') {
        rest := rest[1..];
        name := ConsumeIdent();
        if name.None? {
          return None;
        }
      }
      var args: Option<seq<Argument>> := Some([]);
      if Sees(rest, '(') {
        args := ParseArgumentList();
        if args.None? {
          return None;
        }
      }
      var directives := ParseDirectiveList();
      if directives.None? {
        return None;
      }
      var sels: Option<seq<Selection>> := Some([]);
      if Sees(rest, '{') {
        sels := ParseSet();
        if sels.None? {
          return None;
        }
      }
      r := Some(FieldSelection(alias.value, name.value, args.value, directives.value, sels.value, None));
    }

    method ConsumeDots() returns (r: Option<()>)
      modifies this
      ensures Yields(r, rest) == ParseDots(old(rest))
    {
      ghost var ts := rest;
      r := ConsumeToken('.');
      if r.Some? {
        assert rest == ts[1..];
        r := ConsumeToken('.');
        if r.Some? {
          assert rest == ts[2..];
          r := ConsumeToken('.');
        }
      }
    }

    method ParseDotted() returns (r: Option<Selection>)
      modifies this
      ensures Yields(r, rest) == ParseSpread(old(rest))
      decreases |rest|, 2
    {
      hide ParseDots, ParseDirectives, ParseSelectionSet;
      var dots := ConsumeDots();
      if dots.None? {
        return None;
      }
      var on := Some("");
      if SeesName(rest) {
        var ident := ConsumeIdent();
        if ident.value != "on" {
          var directives := ParseDirectiveList();
          if directives.None? {
            return None;
          }
          return Some(Spread(ident.value, directives.value));
        }
        on := ConsumeIdent();
        if on.None? {
          return None;
        }
      }
      var directives := ParseDirectiveList();
      if directives.None? {
        return None;
      }
      var sels := ParseSet();
      if sels.None? {
        return None;
      }
      r := Some(Inline(on.value, directives.value, sels.value));
    }

    // ----- definitions -----

    method ParseOp(op: OperationType) returns (r: Option<Operation>)
      modifies this
      ensures Yields(r, rest) == ParseOperation(old(rest), op)
    {
      hide ParseDirectives, ParseVars, ParseSelectionSet;
      var name := Some("");
      if SeesName(rest) {
        name := ConsumeIdent();
      }
      var directives := ParseDirectiveList();
      if directives.None? {
        return None;
      }
      var vars: Option<seq<InputValue>> := Some([]);
      if Sees(rest, '(') {
        vars := ParseVariables();
        if vars.None? {
          return None;
        }
      }
      var sels := ParseSet();
      if sels.None? {
        return None;
      }
      r := Some(Operation(op, name.value, vars.value, directives.value, sels.value));
    }

    method ParseFrag() returns (r: Option<Fragment>)
      modifies this
      ensures Yields(r, rest) == ParseFragment(old(rest))
    {
      hide ParseName, ParseKeyword, ParseDirectives, ParseSelectionSet;
      var name := ConsumeIdent();
      if name.None? {
        return None;
      }
      var on := ConsumeKeyword("on");
      if on.None? {
        return None;
      }
      var typ := ConsumeIdent();
      if typ.None? {
        return None;
      }
      var directives := ParseDirectiveList();
      if directives.None? {
        return None;
      }
      var sels := ParseSet();
      if sels.None? {
        return None;
      }
      r := Some(Fragment(name.value, typ.value, directives.value, sels.value));
    }

    method ParseDef() returns (r: Option<Definition>)
      modifies this
      ensures Yields(r, rest) == ParseDefinition(old(rest))
    {
      hide ParseOperation, ParseFragment, ParseSelectionSet;
      if Sees(rest, '{') {
        var sels := ParseSet();
        if sels.None? {
          return None;
        }
        return Some(Op(Operation(QueryOp, "", [], [], sels.value)));
      }
      var x := ConsumeIdent();
      if x.None? {
        return None;
      }
      if x.value == "fragment" {
        var f := ParseFrag();
        if f.None? {
          return None;
        }
        return Some(Frag(f.value));
      }
      var typ := if x.value == "query" then Some(QueryOp)
                 else if x.value == "mutation" then Some(MutationOp)
                 else if x.value == "subscription" then Some(SubscriptionOp)
                 else None;
      if typ.None? {
        return None;
      }
      var op := ParseOp(typ.value);
      if op.None? {
        return None;
      }
      r := Some(Op(op.value));
    }

    lemma TokensSpell(ts: seq<Token>)
      ensures forall doc :: Parse(ts) == Some(doc) <==> Spelling.Spells(ts, doc)
    {
      forall doc
        ensures Parse(ts) == Some(doc) <==> Spelling.Spells(ts, doc)
      {
        Accepted.ParseIff(ts, doc);
      }
    }

    /** The whole document: the one that the tokens spell, or an error if they spell none. */
    method ParseDoc() returns (r: Option<Document>)
      modifies this
      ensures r == Parse(old(rest))
      ensures forall doc :: r == Some(doc) <==> Spelling.Spells(old(rest), doc)
    {
      hide ParseDefinition, Spelling.Spells;
      TokensSpell(rest);
      var doc := Document([], []);
      while rest != []
        invariant Parse(old(rest)) == ParseDocument(rest, doc)
        decreases |rest|
      {
        var d := ParseDef();
        if d.None? {
          return None;
        }
        doc := With(doc, d.value);
      }
      r := Some(doc);
    }
  }
}
