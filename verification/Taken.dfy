/**
 What the parser builds a document from: every token printed for it is one of the
 tokens read, or a sign or a word of the grammar.
 */
module Taken {
  import opened Query
  import opened Syntax
  import opened Printing
  import opened Parsed

  const Words := ["query", "mutation", "subscription", "fragment", "on", "null"]

  predicate IsSign(c: char) {
    c == '$' || c == '-' || c == '[' || c == ']' || c == '{' || c == '}' || c == '(' || c == ')' ||
    c == ':' || c == '@' || c == '=' || c == '!' || c == '.'
  }

  ghost predicate Known(ts: seq<Token>, t: Token) {
    match t
    case Punct(c) => IsSign(c)
    case Lit(kind, text) => t in ts || (kind == IdentLit && text in Words)
  }

  /** What is left are the last tokens, and those of `out` are known. */
  ghost predicate Took(ts: seq<Token>, rest: seq<Token>, out: seq<Token>) {
    && |rest| <= |ts| && rest == ts[|ts| - |rest|..]
    && forall t :: t in out ==> Known(ts, t)
  }

  lemma TookNothing(ts: seq<Token>)
    ensures Took(ts, ts, [])
  {
  }

  lemma TookJoined(ts: seq<Token>, mid: seq<Token>, rest: seq<Token>, a: seq<Token>, b: seq<Token>)
    requires Took(ts, mid, a) && Took(mid, rest, b)
    ensures Took(ts, rest, a + b)
  {
    var k, n := |ts| - |mid|, |ts| - |rest|;
    assert ts[n..] == ts[k..][n - k..];
    forall t | t in a + b
      ensures Known(ts, t)
    {
      if t in b && t in mid {
        assert t in ts;
      }
    }
  }

  lemma TookOk(ts: seq<Token>, rest: seq<Token>, out: seq<Token>)
    requires TokensOk(ts) && Took(ts, rest, out)
    ensures TokensOk(rest)
  {
    RestOk(ts, |ts| - |rest|);
  }

  /** A punctuator that is read, and one that is printed or not. */
  lemma TookSign(ts: seq<Token>, c: char)
    requires ts != [] && IsSign(c)
    ensures Took(ts, ts[1..], [Punct(c)]) && Took(ts, ts[1..], [])
  {
  }

  lemma TookName(ts: seq<Token>)
    requires SeesName(ts)
    ensures Took(ts, ts[1..], [Name(ts[0].text)]) && ParseName(ts) == Ok(ts[0].text, ts[1..])
  {
  }

  lemma TookWord(ts: seq<Token>, word: string)
    requires word in Words
    ensures Took(ts, ts, [Name(word)])
  {
  }

  /** Not all that was read need be printed. */
  lemma TookFewer(ts: seq<Token>, rest: seq<Token>, out: seq<Token>, fewer: seq<Token>)
    requires Took(ts, rest, out) && forall t :: t in fewer ==> t in out
    ensures Took(ts, rest, fewer)
  {
  }

  // ----- literals -----

  lemma TookBasic(ts: seq<Token>)
    requires TokensOk(ts) && ParseBasic(ts).Ok?
    ensures (var r := ParseBasic(ts); r.value.BasicLit? && Took(ts, r.rest, PrintLiteral(r.value)))
    ensures (var r := ParseBasic(ts); r.value.text != "" && r.value.text[0] != '-')
  {
    assert ts[0] in ts;
  }

  lemma {:induction false} TookLiteral(ts: seq<Token>, constOnly: bool)
    requires TokensOk(ts) && ParseLiteral(ts, constOnly).Ok?
    ensures (var r := ParseLiteral(ts, constOnly); Took(ts, r.rest, PrintLiteral(r.value)))
    decreases |ts|, 0
  {
    hide TokensOk, Took, ParseBasic, ParseEntries, ParseFields, PrintEntries, PrintFields, SortFields;
    RestOk(ts, 1);
    if ts[0].Lit? {
      if ts[0] == Lit(IdentLit, "null") {
        TookName(ts);
      } else {
        TookBasic(ts);
      }
    } else if ts[0].ch == '$' {
      TookSign(ts, '$');
      TookName(ts[1..]);
      TookJoined(ts, ts[1..], ts[1..][1..], [Punct('$')], [Name(ts[1].text)]);
      assert [Punct('$')] + [Name(ts[1].text)] == PrintLiteral(Variable(ts[1].text));
    } else if ts[0].ch == '-' {
      TookNegative(ts);
    } else if ts[0].ch == '[' {
      TookEntries(ts[1..], constOnly);
      var r := ParseEntries(ts[1..], constOnly);
      TookSign(ts, '[');
      TookJoined(ts, ts[1..], r.rest, [Punct('[')], PrintEntries(r.value) + [Punct(']')]);
      assert [Punct('[')] + (PrintEntries(r.value) + [Punct(']')]) == PrintLiteral(ListLit(r.value));
    } else {
      TookFields(ts[1..], constOnly);
      var r := ParseFields(ts[1..], constOnly);
      TookSign(ts, '{');
      SortedPrinted(r.value);
      TookFewer(ts[1..], r.rest, PrintFields(r.value) + [Punct('}')], PrintFields(SortFields(r.value)) + [Punct('}')]);
      TookJoined(ts, ts[1..], r.rest, [Punct('{')], PrintFields(SortFields(r.value)) + [Punct('}')]);
      assert [Punct('{')] + (PrintFields(SortFields(r.value)) + [Punct('}')]) ==
             PrintLiteral(ObjectLit(SortFields(r.value)));
    }
  }

  lemma TookNegative(ts: seq<Token>)
    requires TokensOk(ts) && ts != [] && ts[0] == Punct('-') && Negative(ParseBasic(ts[1..])).Ok?
    ensures (var r := Negative(ParseBasic(ts[1..])); Took(ts, r.rest, PrintLiteral(r.value)))
  {
    var basic := ts[1];
    assert PrintLiteral(BasicLit(basic.kind, "-" + basic.text)) == [Punct('-'), basic];
    assert ts[1..][1..] == ts[2..];
  }

  lemma {:induction false} InsertedPrinted(f: ObjectField, fields: seq<ObjectField>)
    ensures forall t :: t in PrintFields(InsertField(f, fields)) ==> t in PrintFields([f] + fields)
  {
    hide PrintLiteral;
    assert ([f] + fields)[1..] == fields;
    if !(fields == [] || NameLess(f, fields[0])) {
      InsertedPrinted(f, fields[1..]);
      var rest := InsertField(f, fields[1..]);
      assert ([fields[0]] + rest)[1..] == rest;
      assert ([f] + fields[1..])[1..] == fields[1..];
    }
  }

  lemma {:induction false} PrintedJoined(a: seq<ObjectField>, b: seq<ObjectField>)
    ensures PrintFields(a + b) == PrintFields(a) + PrintFields(b)
  {
    hide PrintLiteral;
    if a == [] {
      assert a + b == b;
    } else {
      assert (a + b)[1..] == a[1..] + b;
      PrintedJoined(a[1..], b);
    }
  }

  lemma {:induction false} SortedPrinted(fields: seq<ObjectField>)
    ensures forall t :: t in PrintFields(SortFields(fields)) ==> t in PrintFields(fields)
  {
    hide PrintFields, InsertField;
    if fields != [] {
      var last, most := fields[|fields| - 1], fields[..|fields| - 1];
      SortedPrinted(most);
      InsertedPrinted(last, SortFields(most));
      PrintedJoined([last], SortFields(most));
      PrintedJoined(most, [last]);
      assert most + [last] == fields;
    }
  }

  /** Entries and the bracket behind them. */
  lemma {:induction false} TookEntries(ts: seq<Token>, constOnly: bool)
    requires TokensOk(ts) && ParseEntries(ts, constOnly).Ok?
    ensures (var r := ParseEntries(ts, constOnly); Took(ts, r.rest, PrintEntries(r.value) + [Punct(']')]))
    decreases |ts|, 1
  {
    hide TokensOk, Took, ParseLiteral, PrintLiteral;
    if Sees(ts, ']') {
      TookSign(ts, ']');
      assert [] + [Punct(']')] == [Punct(']')];
    } else {
      TookLiteral(ts, constOnly);
      var lit := ParseLiteral(ts, constOnly);
      TookOk(ts, lit.rest, PrintLiteral(lit.value));
      TookEntries(lit.rest, constOnly);
      var r := ParseEntries(lit.rest, constOnly);
      TookJoined(ts, lit.rest, r.rest, PrintLiteral(lit.value), PrintEntries(r.value) + [Punct(']')]);
      assert ([lit.value] + r.value)[1..] == r.value;
      assert PrintLiteral(lit.value) + (PrintEntries(r.value) + [Punct(']')]) ==
             PrintEntries([lit.value] + r.value) + [Punct(']')];
    }
  }

  /** A name, a colon and a literal. */
  lemma TookNamed(ts: seq<Token>, constOnly: bool)
    requires TokensOk(ts) && SeesName(ts) && Sees(ts[1..], ':') && ParseLiteral(ts[2..], constOnly).Ok?
    ensures (var r := ParseLiteral(ts[2..], constOnly);
             Took(ts, r.rest, [Name(ts[0].text), Punct(':')] + PrintLiteral(r.value)))
    decreases |ts|, 0
  {
    hide TokensOk, Took, ParseLiteral, PrintLiteral;
    RestOk(ts, 2);
    TookLiteral(ts[2..], constOnly);
    TookName(ts);
    TookSign(ts[1..], ':');
    assert ts[1..][1..] == ts[2..];
    TookJoined(ts, ts[1..], ts[2..], [Name(ts[0].text)], [Punct(':')]);
    var r := ParseLiteral(ts[2..], constOnly);
    TookJoined(ts, ts[2..], r.rest, [Name(ts[0].text)] + [Punct(':')], PrintLiteral(r.value));
    assert [Name(ts[0].text)] + [Punct(':')] == [Name(ts[0].text), Punct(':')];
  }

  lemma {:induction false} TookFields(ts: seq<Token>, constOnly: bool)
    requires TokensOk(ts) && ParseFields(ts, constOnly).Ok?
    ensures (var r := ParseFields(ts, constOnly); Took(ts, r.rest, PrintFields(r.value) + [Punct('}')]))
    decreases |ts|, 1
  {
    hide TokensOk, Took, ParseLiteral, PrintLiteral;
    if Sees(ts, '}') {
      TookSign(ts, '}');
      assert [] + [Punct('}')] == [Punct('}')];
    } else {
      assert ts[1..][1..] == ts[2..];
      TookNamed(ts, constOnly);
      var f := ParseObjectField(ts, constOnly);
      var one := [Name(ts[0].text), Punct(':')] + PrintLiteral(f.value.value);
      TookOk(ts, f.rest, one);
      TookFields(f.rest, constOnly);
      var r := ParseFields(f.rest, constOnly);
      TookJoined(ts, f.rest, r.rest, one, PrintFields(r.value) + [Punct('}')]);
      assert ([f.value] + r.value)[1..] == r.value;
      assert one + (PrintFields(r.value) + [Punct('}')]) == PrintFields([f.value] + r.value) + [Punct('}')];
    }
  }

  // ----- arguments and directives -----

  lemma {:induction false} TookArgs(ts: seq<Token>)
    requires TokensOk(ts) && ParseArgs(ts).Ok?
    ensures (var r := ParseArgs(ts); Took(ts, r.rest, PrintArgs(r.value) + [Punct(')')]))
    decreases |ts|
  {
    hide TokensOk, Took, ParseLiteral, PrintLiteral;
    if Sees(ts, ')') {
      TookSign(ts, ')');
      assert [] + [Punct(')')] == [Punct(')')];
    } else {
      assert ts[1..][1..] == ts[2..];
      TookNamed(ts, false);
      var arg := ParseArgument(ts);
      TookOk(ts, arg.rest, PrintArgument(arg.value));
      TookArgs(arg.rest);
      var r := ParseArgs(arg.rest);
      TookJoined(ts, arg.rest, r.rest, PrintArgument(arg.value), PrintArgs(r.value) + [Punct(')')]);
      assert ([arg.value] + r.value)[1..] == r.value;
      assert PrintArgument(arg.value) + (PrintArgs(r.value) + [Punct(')')]) ==
             PrintArgs([arg.value] + r.value) + [Punct(')')];
    }
  }

  lemma TookArguments(ts: seq<Token>)
    requires TokensOk(ts) && ParseOptionalArguments(ts).Ok?
    ensures (var r := ParseOptionalArguments(ts); Took(ts, r.rest, PrintArguments(r.value)))
  {
    hide TokensOk, Took, ParseArgs, PrintArgs;
    TookNothing(ts);
    if Sees(ts, '(') {
      RestOk(ts, 1);
      TookArgs(ts[1..]);
      TookSign(ts, '(');
      var r := ParseArgs(ts[1..]);
      TookJoined(ts, ts[1..], r.rest, [Punct('(')], PrintArgs(r.value) + [Punct(')')]);
      assert [Punct('(')] + (PrintArgs(r.value) + [Punct(')')]) == [Punct('(')] + PrintArgs(r.value) + [Punct(')')];
      if r.value == [] {
        TookFewer(ts, r.rest, [Punct('(')] + (PrintArgs(r.value) + [Punct(')')]), []);
      }
    }
  }

  lemma {:induction false} TookDirectives(ts: seq<Token>)
    requires TokensOk(ts) && ParseDirectives(ts).Ok?
    ensures (var r := ParseDirectives(ts); Took(ts, r.rest, PrintDirectives(r.value)))
    decreases |ts|
  {
    hide TokensOk, Took, ParseOptionalArguments, PrintArguments;
    TookNothing(ts);
    if Sees(ts, '@') {
      RestOk(ts, 1);
      RestOk(ts[1..], 1);
      TookSign(ts, '@');
      TookName(ts[1..]);
      TookArguments(ts[1..][1..]);
      var d := ParseDirective(ts[1..]);
      TookJoined(ts, ts[1..], ts[1..][1..], [Punct('@')], [Name(d.value.name)]);
      TookJoined(ts, ts[1..][1..], d.rest, [Punct('@')] + [Name(d.value.name)], PrintArguments(d.value.args));
      assert [Punct('@')] + [Name(d.value.name)] + PrintArguments(d.value.args) == PrintDirective(d.value);
      TookOk(ts, d.rest, PrintDirective(d.value));
      TookDirectives(d.rest);
      var r := ParseDirectives(d.rest);
      TookJoined(ts, d.rest, r.rest, PrintDirective(d.value), PrintDirectives(r.value));
      assert ([d.value] + r.value)[1..] == r.value;
    }
  }

  // ----- types and variables -----

  lemma {:induction false} TookType(ts: seq<Token>)
    requires ParseType(ts).Ok?
    ensures (var r := ParseType(ts); Took(ts, r.rest, PrintType(r.value)))
    decreases |ts|, 1
  {
    hide Took, ParseNullType, PrintType;
    TookNullType(ts);
    var t := ParseNullType(ts);
    if Sees(t.rest, '!') {
      TookSign(t.rest, '!');
      TookJoined(ts, t.rest, t.rest[1..], PrintType(t.value), [Punct('!')]);
      NonNullPrinted(t.value);
    }
  }

  lemma NonNullPrinted(t: Type)
    ensures PrintType(NonNullOf(t)) == PrintType(t) + [Punct('!')]
  {
  }

  lemma {:induction false} TookNullType(ts: seq<Token>)
    requires ParseNullType(ts).Ok?
    ensures (var r := ParseNullType(ts); Took(ts, r.rest, PrintType(r.value)))
    decreases |ts|, 0
  {
    hide Took, ParseType;
    if Sees(ts, '[') {
      TookSign(ts, '[');
      TookType(ts[1..]);
      var of := ParseType(ts[1..]);
      TookSign(of.rest, ']');
      TookJoined(ts, ts[1..], of.rest, [Punct('[')], PrintType(of.value));
      TookJoined(ts, of.rest, of.rest[1..], [Punct('[')] + PrintType(of.value), [Punct(']')]);
    } else {
      TookName(ts);
    }
  }

  lemma TookDefault(ts: seq<Token>)
    requires TokensOk(ts) && ParseDefault(ts).Ok?
    ensures (var r := ParseDefault(ts); Took(ts, r.rest, PrintDefault(r.value)))
  {
    hide TokensOk, Took, ParseLiteral, PrintLiteral;
    TookNothing(ts);
    if Sees(ts, '=') {
      RestOk(ts, 1);
      TookLiteral(ts[1..], true);
      TookSign(ts, '=');
      var r := ParseLiteral(ts[1..], true);
      TookJoined(ts, ts[1..], r.rest, [Punct('=')], PrintLiteral(r.value));
    }
  }

  lemma TookDescription(ts: seq<Token>)
    ensures Took(ts, SkipDescription(ts), [])
  {
  }

  lemma TookVariable(ts: seq<Token>)
    requires TokensOk(ts) && ParseVariable(ts).Ok?
    ensures (var r := ParseVariable(ts); Took(ts, r.rest, PrintVariable(r.value)))
  {
    hide TokensOk, Took, SkipDescription, ParseType, PrintType, ParseDefault, PrintDefault, ParseDirectives,
         PrintDirectives;
    var t1 := ts[1..];
    var t2 := SkipDescription(t1);
    var t3 := t2[1..];
    var t4 := t3[1..];
    var typ := ParseType(t4);
    var default := ParseDefault(typ.rest);
    var ds := ParseDirectives(default.rest);
    TookSign(ts, '$');
    TookDescription(t1);
    TookName(t2);
    TookSign(t3, ':');
    TookType(t4);
    var name := t2[0].text;
    TookJoined(ts, t1, t2, [Punct('$')], []);
    TookJoined(ts, t2, t3, [Punct('$')] + [], [Name(name)]);
    TookJoined(ts, t3, t4, [Punct('$')] + [] + [Name(name)], [Punct(':')]);
    var head := [Punct('$')] + [] + [Name(name)] + [Punct(':')];
    TookJoined(ts, t4, typ.rest, head, PrintType(typ.value));
    TookOk(ts, typ.rest, head + PrintType(typ.value));
    TookDefault(typ.rest);
    TookJoined(ts, typ.rest, default.rest, head + PrintType(typ.value), PrintDefault(default.value));
    var out := head + PrintType(typ.value) + PrintDefault(default.value);
    TookOk(ts, default.rest, out);
    TookDirectives(default.rest);
    TookUnprinted(ts, default.rest, ds.rest, out, PrintDirectives(ds.value));
    assert head == PrintVariableName("$" + name) + [Punct(':')];
  }

  /** What is read need not be printed. */
  lemma TookUnprinted(ts: seq<Token>, mid: seq<Token>, rest: seq<Token>, a: seq<Token>, b: seq<Token>)
    requires Took(ts, mid, a) && Took(mid, rest, b)
    ensures Took(ts, rest, a)
  {
    hide Took;
    TookJoined(ts, mid, rest, a, b);
    TookFewer(ts, rest, a + b, a);
  }

  lemma {:induction false} TookVars(ts: seq<Token>)
    requires TokensOk(ts) && ParseVars(ts).Ok?
    ensures (var r := ParseVars(ts); Took(ts, r.rest, PrintVars(r.value) + [Punct(')')]))
    decreases |ts|
  {
    hide TokensOk, Took, ParseVariable, PrintVariable;
    if Sees(ts, ')') {
      TookSign(ts, ')');
      assert [] + [Punct(')')] == [Punct(')')];
    } else {
      TookVariable(ts);
      var v := ParseVariable(ts);
      TookOk(ts, v.rest, PrintVariable(v.value));
      TookVars(v.rest);
      var r := ParseVars(v.rest);
      TookJoined(ts, v.rest, r.rest, PrintVariable(v.value), PrintVars(r.value) + [Punct(')')]);
      assert ([v.value] + r.value)[1..] == r.value;
      assert PrintVariable(v.value) + (PrintVars(r.value) + [Punct(')')]) ==
             PrintVars([v.value] + r.value) + [Punct(')')];
    }
  }

  lemma TookVariables(ts: seq<Token>)
    requires TokensOk(ts) && ParseOptionalVars(ts).Ok?
    ensures (var r := ParseOptionalVars(ts); Took(ts, r.rest, PrintVariables(r.value)))
  {
    hide TokensOk, Took, ParseVars, PrintVars;
    TookNothing(ts);
    if Sees(ts, '(') {
      RestOk(ts, 1);
      TookVars(ts[1..]);
      TookSign(ts, '(');
      var r := ParseVars(ts[1..]);
      TookJoined(ts, ts[1..], r.rest, [Punct('(')], PrintVars(r.value) + [Punct(')')]);
      assert [Punct('(')] + (PrintVars(r.value) + [Punct(')')]) == [Punct('(')] + PrintVars(r.value) + [Punct(')')];
      if r.value == [] {
        TookFewer(ts, r.rest, [Punct('(')] + (PrintVars(r.value) + [Punct(')')]), []);
      }
    }
  }

  // ----- selections -----

  /** The token read last is a closing brace. */
  ghost predicate EndsInBrace(ts: seq<Token>, rest: seq<Token>) {
    |rest| < |ts| && ts[|ts| - |rest| - 1] == Punct('}')
  }

  lemma BraceKept(ts: seq<Token>, mid: seq<Token>, rest: seq<Token>, a: seq<Token>)
    requires Took(ts, mid, a) && EndsInBrace(mid, rest)
    ensures EndsInBrace(ts, rest)
  {
    assert mid[|mid| - |rest| - 1] == ts[|ts| - |rest| - 1];
  }

  lemma {:induction false} TookSelections(ts: seq<Token>)
    requires TokensOk(ts) && ParseSelections(ts).Ok?
    ensures (var r := ParseSelections(ts);
             Took(ts, r.rest, PrintSelections(r.value) + [Punct('}')]) && EndsInBrace(ts, r.rest))
    decreases |ts|, 4
  {
    hide TokensOk, Took, ParseSelection, PrintSelection, EndsInBrace;
    if Sees(ts, '}') {
      TookSign(ts, '}');
      BraceHere(ts);
      assert [] + [Punct('}')] == [Punct('}')];
    } else {
      TookSelection(ts);
      var s := ParseSelection(ts);
      TookOk(ts, s.rest, PrintSelection(s.value));
      TookSelections(s.rest);
      var r := ParseSelections(s.rest);
      TookJoined(ts, s.rest, r.rest, PrintSelection(s.value), PrintSelections(r.value) + [Punct('}')]);
      BraceKept(ts, s.rest, r.rest, PrintSelection(s.value));
      assert ([s.value] + r.value)[1..] == r.value;
      assert PrintSelection(s.value) + (PrintSelections(r.value) + [Punct('}')]) ==
             PrintSelections([s.value] + r.value) + [Punct('}')];
    }
  }

  lemma BraceHere(ts: seq<Token>)
    requires Sees(ts, '}')
    ensures EndsInBrace(ts, ts[1..])
  {
  }

  lemma TookSet(ts: seq<Token>)
    requires TokensOk(ts) && ParseSelectionSet(ts).Ok?
    ensures (var r := ParseSelectionSet(ts); Took(ts, r.rest, PrintSelectionSet(r.value)) && EndsInBrace(ts, r.rest))
    decreases |ts|, 0
  {
    hide TokensOk, Took, ParseSelections, PrintSelections, EndsInBrace;
    RestOk(ts, 1);
    TookSelections(ts[1..]);
    TookSign(ts, '{');
    var r := ParseSelections(ts[1..]);
    BraceKept(ts, ts[1..], r.rest, [Punct('{')]);
    TookJoined(ts, ts[1..], r.rest, [Punct('{')], PrintSelections(r.value) + [Punct('}')]);
    var out := [Punct('{')] + (PrintSelections(r.value) + [Punct('}')]);
    assert out == [Punct('{')] + PrintSelections(r.value) + [Punct('}')];
    if r.value == [] {
      TookFewer(ts, r.rest, out, []);
    }
  }

  lemma TookOptionalSet(ts: seq<Token>)
    requires TokensOk(ts) && ParseOptionalSelectionSet(ts).Ok?
    ensures (var r := ParseOptionalSelectionSet(ts); Took(ts, r.rest, PrintSelectionSet(r.value)))
    decreases |ts|, 1
  {
    hide TokensOk, Took, ParseSelectionSet;
    TookNothing(ts);
    if Sees(ts, '{') {
      TookSet(ts);
    }
  }

  lemma TookSelection(ts: seq<Token>)
    requires TokensOk(ts) && ParseSelection(ts).Ok?
    ensures (var r := ParseSelection(ts); Took(ts, r.rest, PrintSelection(r.value)))
    decreases |ts|, 3
  {
    hide TokensOk, Took, ParseSpread, ParseField, PrintSelection;
    if Sees(ts, '.') {
      TookSpread(ts);
    } else {
      TookField(ts);
    }
  }

  lemma TookFieldName(ts: seq<Token>)
    requires SeesName(ts) && ParseFieldName(ts[1..], ts[0].text).Ok?
    ensures (var alias := ts[0].text;
             var r := ParseFieldName(ts[1..], alias);
             Took(ts, r.rest, [Name(alias)] + (if r.value != alias then [Punct(':'), Name(r.value)] else [])))
  {
    hide Took;
    var alias := ts[0].text;
    TookName(ts);
    var t1 := ts[1..];
    TookNothing(t1);
    if Sees(t1, ':') {
      TookSign(t1, ':');
      TookName(t1[1..]);
      var name := t1[1].text;
      TookJoined(t1, t1[1..], t1[1..][1..], [Punct(':')], [Name(name)]);
      assert [Punct(':')] + [Name(name)] == [Punct(':'), Name(name)];
      TookFewer(t1, t1[1..][1..], [Punct(':'), Name(name)], []);
      TookJoined(ts, t1, t1[1..][1..], [Name(alias)], if name != alias then [Punct(':'), Name(name)] else []);
    } else {
      TookJoined(ts, t1, t1, [Name(alias)], []);
    }
  }

  lemma TookField(ts: seq<Token>)
    requires TokensOk(ts) && ParseField(ts).Ok?
    ensures (var r := ParseField(ts); Took(ts, r.rest, PrintSelection(Field(r.value))))
    decreases |ts|, 2
  {
    hide TokensOk, Took, ParseFieldName, ParseOptionalArguments, ParseDirectives, ParseOptionalSelectionSet;
    hide PrintArguments, PrintDirectives, PrintSelectionSet;
    var alias := ts[0].text;
    var name := ParseFieldName(ts[1..], alias);
    var a := [Name(alias)] + (if name.value != alias then [Punct(':'), Name(name.value)] else []);
    TookFieldName(ts);
    TookOk(ts, name.rest, a);
    var args := ParseOptionalArguments(name.rest);
    TookArguments(name.rest);
    TookJoined(ts, name.rest, args.rest, a, PrintArguments(args.value));
    TookOk(ts, args.rest, a + PrintArguments(args.value));
    var ds := ParseDirectives(args.rest);
    TookDirectives(args.rest);
    TookJoined(ts, args.rest, ds.rest, a + PrintArguments(args.value), PrintDirectives(ds.value));
    TookOk(ts, ds.rest, a + PrintArguments(args.value) + PrintDirectives(ds.value));
    var sels := ParseOptionalSelectionSet(ds.rest);
    TookOptionalSet(ds.rest);
    TookJoined(ts, ds.rest, sels.rest, a + PrintArguments(args.value) + PrintDirectives(ds.value),
               PrintSelectionSet(sels.value));
  }

  lemma TookDots(ts: seq<Token>)
    requires ParseDots(ts).Ok?
    ensures Took(ts, ParseDots(ts).rest, [Punct('.'), Punct('.'), Punct('.')])
  {
  }

  /** Behind the dots: a name, or the word "on" and a type, or neither. */
  lemma TookSpread(ts: seq<Token>)
    requires TokensOk(ts) && ParseSpread(ts).Ok?
    ensures (var r := ParseSpread(ts); Took(ts, r.rest, PrintSelection(r.value)))
    decreases |ts|, 2
  {
    hide TokensOk, Took, ParseDots, ParseDirectives, ParseSelectionSet, PrintDirectives, PrintSelectionSet;
    var dots := [Punct('.'), Punct('.'), Punct('.')];
    var t1 := ParseDots(ts).rest;
    TookDots(ts);
    TookOk(ts, t1, dots);
    if SeesName(t1) && t1[0].text != "on" {
      TookName(t1);
      TookJoined(ts, t1, t1[1..], dots, [Name(t1[0].text)]);
      var head := dots + [Name(t1[0].text)];
      TookOk(ts, t1[1..], head);
      TookDirectives(t1[1..]);
      var ds := ParseDirectives(t1[1..]);
      TookJoined(ts, t1[1..], ds.rest, head, PrintDirectives(ds.value));
      assert head == [Punct('.'), Punct('.'), Punct('.'), Name(t1[0].text)];
    } else {
      var on := if SeesName(t1) then ParseName(t1[1..]) else Ok("", t1);
      TookOn(ts, t1);
      var head := dots + [Name("on")] + PrintOptionalName(on.value);
      TookOk(ts, on.rest, head);
      TookDirectives(on.rest);
      var ds := ParseDirectives(on.rest);
      TookJoined(ts, on.rest, ds.rest, head, PrintDirectives(ds.value));
      TookOk(ts, ds.rest, head + PrintDirectives(ds.value));
      TookSet(ds.rest);
      var sels := ParseSelectionSet(ds.rest);
      TookJoined(ts, ds.rest, sels.rest, head + PrintDirectives(ds.value), PrintSelectionSet(sels.value));
      assert dots + [Name("on")] == [Punct('.'), Punct('.'), Punct('.'), Name("on")];
    }
  }

  lemma TookOn(ts: seq<Token>, t1: seq<Token>)
    requires Took(ts, t1, [Punct('.'), Punct('.'), Punct('.')])
    requires (if SeesName(t1) then ParseName(t1[1..]) else Ok("", t1)).Ok?
    ensures (var on := if SeesName(t1) then ParseName(t1[1..]) else Ok("", t1);
             Took(ts, on.rest, [Punct('.'), Punct('.'), Punct('.')] + [Name("on")] + PrintOptionalName(on.value)))
  {
    hide Took;
    var dots := [Punct('.'), Punct('.'), Punct('.')];
    assert Words[4] == "on";
    TookWord(t1, "on");
    TookJoined(ts, t1, t1, dots, [Name("on")]);
    if SeesName(t1) {
      TookName(t1);
      TookName(t1[1..]);
      var name := t1[1].text;
      TookUnprinted(ts, t1, t1[1..], dots + [Name("on")], [Name(t1[0].text)]);
      TookJoined(ts, t1[1..], t1[1..][1..], dots + [Name("on")], [Name(name)]);
      TookFewer(ts, t1[1..][1..], dots + [Name("on")] + [Name(name)], dots + [Name("on")]);
      assert dots + [Name("on")] + [] == dots + [Name("on")];
    } else {
      assert dots + [Name("on")] + [] == dots + [Name("on")];
    }
  }

  // ----- documents -----

  lemma TookOptionalName(ts: seq<Token>)
    ensures (var r := if SeesName(ts) then ParseName(ts) else Ok("", ts);
             r.Ok? && Took(ts, r.rest, PrintOptionalName(r.value)))
  {
    hide Took;
    TookNothing(ts);
    if SeesName(ts) {
      TookName(ts);
      TookFewer(ts, ts[1..], [Name(ts[0].text)], []);
    }
  }

  /** `ts` is behind the word. */
  lemma TookOperation(ts: seq<Token>, op: OperationType)
    requires TokensOk(ts) && ParseOperation(ts, op).Ok?
    ensures (var r := ParseOperation(ts, op); Took(ts, r.rest, PrintOperation(r.value)) && EndsInBrace(ts, r.rest))
  {
    hide TokensOk, Took, ParseDirectives, ParseOptionalVars, ParseSelectionSet, EndsInBrace;
    hide PrintDirectives, PrintVariables, PrintSelectionSet, PrintOptionalName;
    var name := if SeesName(ts) then ParseName(ts) else Ok("", ts);
    var a := [Name(OperationWord(op))] + PrintOptionalName(name.value);
    OperationWordKnown(op);
    TookWord(ts, OperationWord(op));
    TookOptionalName(ts);
    TookJoined(ts, ts, name.rest, [Name(OperationWord(op))], PrintOptionalName(name.value));
    TookOk(ts, name.rest, a);
    var ds := ParseDirectives(name.rest);
    TookDirectives(name.rest);
    TookJoined(ts, name.rest, ds.rest, a, PrintDirectives(ds.value));
    TookOk(ts, ds.rest, a + PrintDirectives(ds.value));
    var vars := ParseOptionalVars(ds.rest);
    TookVariables(ds.rest);
    var b := a + PrintDirectives(ds.value) + PrintVariables(vars.value);
    TookJoined(ts, ds.rest, vars.rest, a + PrintDirectives(ds.value), PrintVariables(vars.value));
    TookOk(ts, vars.rest, b);
    TookSet(vars.rest);
    var sels := ParseSelectionSet(vars.rest);
    TookJoined(ts, vars.rest, sels.rest, b, PrintSelectionSet(sels.value));
    BraceKept(ts, vars.rest, sels.rest, b);
  }

  lemma OperationWordKnown(op: OperationType)
    ensures OperationWord(op) in Words
  {
    assert Words[0] == "query" && Words[1] == "mutation" && Words[2] == "subscription";
  }

  lemma TookFragment(ts: seq<Token>)
    requires TokensOk(ts) && ParseFragment(ts).Ok?
    ensures (var r := ParseFragment(ts); Took(ts, r.rest, PrintFragment(r.value)) && EndsInBrace(ts, r.rest))
  {
    hide TokensOk, Took, ParseDirectives, ParseSelectionSet, PrintDirectives, PrintSelectionSet, EndsInBrace;
    var t1 := ts[1..];
    var t2 := t1[1..];
    var t3 := t2[1..];
    var name, on := ts[0].text, t2[0].text;
    TookFragmentHead(ts);
    var a := [Name("fragment")] + PrintOptionalName(name) + [Name("on")] + PrintOptionalName(on);
    TookOk(ts, t3, a);
    TookDirectives(t3);
    var ds := ParseDirectives(t3);
    TookJoined(ts, t3, ds.rest, a, PrintDirectives(ds.value));
    TookOk(ts, ds.rest, a + PrintDirectives(ds.value));
    TookSet(ds.rest);
    var sels := ParseSelectionSet(ds.rest);
    TookJoined(ts, ds.rest, sels.rest, a + PrintDirectives(ds.value), PrintSelectionSet(sels.value));
    BraceKept(ts, ds.rest, sels.rest, a + PrintDirectives(ds.value));
  }

  lemma TookFragmentHead(ts: seq<Token>)
    requires SeesName(ts) && SeesName(ts[1..]) && SeesName(ts[1..][1..]) && ts[1].text == "on"
    ensures (var t2 := ts[1..][1..];
             Took(ts, t2[1..], [Name("fragment")] + PrintOptionalName(ts[0].text) + [Name("on")] +
                  PrintOptionalName(t2[0].text)))
  {
    hide Took;
    var t1 := ts[1..];
    var t2 := t1[1..];
    assert Words[3] == "fragment";
    TookWord(ts, "fragment");
    TookOptionalName(ts);
    TookJoined(ts, ts, t1, [Name("fragment")], PrintOptionalName(ts[0].text));
    TookName(t1);
    var a := [Name("fragment")] + PrintOptionalName(ts[0].text);
    TookJoined(ts, t1, t2, a, [Name("on")]);
    TookOptionalName(t2);
    TookJoined(ts, t2, t2[1..], a + [Name("on")], PrintOptionalName(t2[0].text));
  }

  function PrintDefinition(d: Definition): seq<Token> {
    match d
    case Op(op) => PrintOperation(op)
    case Frag(f) => PrintFragment(f)
  }

  lemma TookDefinition(ts: seq<Token>)
    requires TokensOk(ts) && ParseDefinition(ts).Ok?
    ensures (var r := ParseDefinition(ts); Took(ts, r.rest, PrintDefinition(r.value)) && EndsInBrace(ts, r.rest))
  {
    hide TokensOk, Took, ParseOperation, ParseFragment, ParseSelectionSet, EndsInBrace;
    hide PrintOperation, PrintFragment, PrintSelectionSet;
    if Sees(ts, '{') {
      TookSet(ts);
      var sels := ParseSelectionSet(ts);
      assert Words[0] == "query";
      TookWord(ts, "query");
      TookJoined(ts, ts, sels.rest, [Name("query")], PrintSelectionSet(sels.value));
      ShortPrinted(sels.value);
    } else {
      RestOk(ts, 1);
      TookName(ts);
      TookFewer(ts, ts[1..], [Name(ts[0].text)], []);
      var r := ParseDefinition(ts);
      if ts[0].text == "query" {
        TookOperation(ts[1..], QueryOp);
      } else if ts[0].text == "mutation" {
        TookOperation(ts[1..], MutationOp);
      } else if ts[0].text == "subscription" {
        TookOperation(ts[1..], SubscriptionOp);
      } else {
        TookFragment(ts[1..]);
      }
      TookJoined(ts, ts[1..], r.rest, [], PrintDefinition(r.value));
      BraceKept(ts, ts[1..], r.rest, []);
      assert [] + PrintDefinition(r.value) == PrintDefinition(r.value);
    }
  }

  lemma ShortPrinted(sels: seq<Selection>)
    ensures PrintOperation(Operation(QueryOp, "", [], [], sels)) == [Name("query")] + PrintSelectionSet(sels)
  {
    hide PrintSelectionSet;
    assert PrintOptionalName("") == [] && PrintDirectives([]) == [] && PrintVariables([]) == [];
    assert [Name("query")] + [] + [] + [] == [Name("query")];
  }

  lemma {:induction false} OperationsPrinted(ops: seq<Operation>, op: Operation)
    ensures PrintOperations(ops + [op]) == PrintOperations(ops) + PrintOperation(op)
  {
    hide PrintOperation;
    if ops == [] {
      assert PrintOperation(op) + [] == PrintOperation(op);
    } else {
      assert (ops + [op])[1..] == ops[1..] + [op];
      OperationsPrinted(ops[1..], op);
    }
  }

  lemma {:induction false} FragmentsPrinted(fs: seq<Fragment>, f: Fragment)
    ensures PrintFragments(fs + [f]) == PrintFragments(fs) + PrintFragment(f)
  {
    hide PrintFragment;
    if fs == [] {
      assert PrintFragment(f) + [] == PrintFragment(f);
    } else {
      assert (fs + [f])[1..] == fs[1..] + [f];
      FragmentsPrinted(fs[1..], f);
    }
  }

  lemma WithPrinted(doc: Document, d: Definition, t: Token)
    ensures t in Print(With(doc, d)) <==> t in Print(doc) || t in PrintDefinition(d)
  {
    match d
    case Op(op) => OperationsPrinted(doc.operations, op);
    case Frag(f) => FragmentsPrinted(doc.fragments, f);
  }

  lemma {:induction false} TookDocument(ts: seq<Token>, doc: Document)
    requires TokensOk(ts) && ParseDocument(ts, doc).Some?
    ensures ts != [] ==> ts[|ts| - 1] == Punct('}')
    ensures forall t :: t in Print(ParseDocument(ts, doc).value) ==> Known(ts, t) || t in Print(doc)
    decreases |ts|
  {
    hide TokensOk, ParseDefinition, Print, PrintDefinition, Known;
    if ts != [] {
      TookDefinition(ts);
      var d := ParseDefinition(ts);
      TookOk(ts, d.rest, PrintDefinition(d.value));
      TookDocument(d.rest, With(doc, d.value));
      forall t | t in Print(ParseDocument(ts, doc).value)
        ensures Known(ts, t) || t in Print(doc)
      {
        WithPrinted(doc, d.value, t);
        KnownBefore(ts, d.rest, PrintDefinition(d.value), t);
      }
    }
  }

  lemma KnownBefore(ts: seq<Token>, rest: seq<Token>, out: seq<Token>, t: Token)
    requires Took(ts, rest, out)
    ensures Known(rest, t) ==> Known(ts, t)
  {
  }

  /** Every token printed was read, or is a sign or a word of the grammar; and the last token read is a brace. */
  lemma PrintedWasRead(ts: seq<Token>)
    requires TokensOk(ts) && Parse(ts).Some?
    ensures ts != [] ==> ts[|ts| - 1] == Punct('}')
    ensures forall t :: t in Print(Parse(ts).value) ==> Known(ts, t)
  {
    TookDocument(ts, Document([], []));
  }
}
