/**
 The tokens in the text of a document: those printed for it, each kept apart from
 the next, with the literals as the text has them.
 */
module PrintedTokens {
  import opened Wrappers
  import opened Query
  import opened Syntax
  import opened Printing
  import ScannerSpec
  import opened ScannerLocality
  import opened TextScan
  import opened PrintedText
  import opened IndentedDocument
  import opened HungLexemes

  // ----- the tokens in the text -----

  /** Whatever ends tokens may come after. */
  ghost predicate Standing(parts: seq<Part>) {
    forall after | Ends(after) :: Separated(parts, after)
  }

  /** What comes after ends the token before, if it ends these parts. */
  ghost predicate Begins(parts: seq<Part>) {
    forall after | Ends(after) :: Ends(Text(parts) + after)
  }

  /** The parts are the tokens, kept apart. */
  ghost predicate Spells(parts: seq<Part>, ts: seq<Token>) {
    Standing(parts) && TokensIn(parts) == ts
  }

  lemma SpellsJoined(a: seq<Part>, x: seq<Token>, b: seq<Part>, y: seq<Token>)
    requires Spells(a, x) && Spells(b, y) && Begins(b)
    ensures Spells(a + b, x + y) && (Begins(a) ==> Begins(a + b))
  {
    hide Text, Separated, Ends, TokensIn;
    TextJoined(a, b);
    forall after | Ends(after)
      ensures Separated(a + b, after)
    {
      SeparatedJoined(a, b, after);
    }
    if Begins(a) {
      BeginsJoined(a, b);
    }
  }

  lemma BeginsJoined(a: seq<Part>, b: seq<Part>)
    requires Begins(a) && Begins(b)
    ensures Begins(a + b)
  {
    hide Text, Ends;
    TextJoined(a, b);
    forall after | Ends(after)
      ensures Ends(Text(a + b) + after)
    {
      assert Text(a + b) + after == Text(a) + (Text(b) + after);
    }
  }

  lemma TokensSpelled(parts: seq<Part>, ts: seq<Token>)
    requires Spells(parts, ts)
    ensures TokensIn(parts) == ts
  {
  }

  lemma SpellsNothing()
    ensures Spells([], []) && Begins([])
  {
    forall after | Ends(after)
      ensures Ends(Text([]) + after)
    {
      assert Text([]) + after == after;
    }
  }

  lemma SpellsSign(c: char)
    requires c != '.'
    ensures Spells([Sign(c)], [Punct(c)]) && (EndsToken(c as int) ==> Begins([Sign(c)]))
  {
    assert Text([Sign(c)]) == [c];
  }

  lemma SpellsGap(text: string)
    requires IsGap(text) && text != ""
    ensures Spells([Gap(text)], []) && Begins([Gap(text)])
  {
    assert Text([Gap(text)]) == text;
    assert text[0] in text;
  }

  lemma SpellsLiteral(kind: LiteralKind, text: string)
    ensures Spells([Tok(Lit(kind, text))], [Lit(kind, text)])
  {
    forall after | Ends(after)
      ensures Separated([Tok(Lit(kind, text))], after)
    {
      assert Text([]) + after == after;
    }
  }

  // ----- lists -----

  function ItemTokens(items: seq<seq<Part>>): seq<Token> {
    if items == [] then [] else TokensIn(items[0]) + ItemTokens(items[1..])
  }

  ghost predicate ItemsSpell(items: seq<seq<Part>>, ts: seq<Token>) {
    (forall i | 0 <= i < |items| :: Standing(items[i])) && ItemTokens(items) == ts
  }

  lemma {:induction false} FollowingSpells(items: seq<seq<Part>>)
    requires forall i | 0 <= i < |items| :: Standing(items[i])
    ensures Spells(Following(items), ItemTokens(items)) && Begins(Following(items))
  {
    hide Standing, Begins;
    SpellsNothing();
    if items != [] {
      FollowingSpells(items[1..]);
      SpellsGap(", ");
      SpellsJoined(items[0], TokensIn(items[0]), Following(items[1..]), ItemTokens(items[1..]));
      var most := items[0] + Following(items[1..]);
      GapBefore(", ", most, ItemTokens(items));
      assert Following(items) == [Gap(", ")] + most;
    }
  }

  /** A gap may come before anything. */
  lemma GapBefore(text: string, parts: seq<Part>, ts: seq<Token>)
    requires IsGap(text) && text != "" && Spells(parts, ts)
    ensures Spells([Gap(text)] + parts, ts) && Begins([Gap(text)] + parts)
  {
    var more := [Gap(text)] + parts;
    assert more[1..] == parts && text[0] in text;
    forall after | Ends(after)
      ensures Separated(more, after) && Ends(Text(more) + after)
    {
      assert Separated(parts, after);
    }
    assert TokensIn(more) == [] + ts;
  }

  /** So may a punctuator that is no point. */
  lemma SignBefore(c: char, parts: seq<Part>, ts: seq<Token>)
    requires c != '.' && Spells(parts, ts)
    ensures Spells([Sign(c)] + parts, [Punct(c)] + ts)
    ensures EndsToken(c as int) ==> Begins([Sign(c)] + parts)
  {
    var more := [Sign(c)] + parts;
    assert more[1..] == parts;
    forall after | Ends(after)
      ensures Separated(more, after)
    {
      assert Separated(parts, after);
    }
  }

  lemma CommasSpell(items: seq<seq<Part>>, ts: seq<Token>)
    requires ItemsSpell(items, ts)
    ensures Spells(Commas(items), ts)
  {
    hide Standing, Begins;
    SpellsNothing();
    if items != [] {
      FollowingSpells(items[1..]);
      SpellsJoined(items[0], TokensIn(items[0]), Following(items[1..]), ItemTokens(items[1..]));
    }
  }

  lemma ItemBefore(item: seq<Part>, ts: seq<Token>, items: seq<seq<Part>>, us: seq<Token>)
    requires Spells(item, ts) && ItemsSpell(items, us)
    ensures ItemsSpell([item] + items, ts + us)
  {
    hide Standing;
    assert ([item] + items)[1..] == items;
  }

  /** Items in brackets. */
  lemma InBrackets(open: char, parts: seq<Part>, ts: seq<Token>, close: char)
    requires Spells(parts, ts) && open != '.' && close != '.' && EndsToken(close as int)
    ensures Spells([Sign(open)] + parts + [Sign(close)], [Punct(open)] + ts + [Punct(close)])
    ensures EndsToken(open as int) ==> Begins([Sign(open)] + parts + [Sign(close)])
  {
    hide Spells, Begins;
    SpellsSign(close);
    SpellsJoined(parts, ts, [Sign(close)], [Punct(close)]);
    SignBefore(open, parts + [Sign(close)], ts + [Punct(close)]);
    assert [Sign(open)] + parts + [Sign(close)] == [Sign(open)] + (parts + [Sign(close)]);
    assert [Punct(open)] + ts + [Punct(close)] == [Punct(open)] + (ts + [Punct(close)]);
  }

  /** A name, a punctuator, perhaps a gap, and then something else. */
  lemma NamedBefore(name: string, c: char, gap: seq<Part>, parts: seq<Part>, ts: seq<Token>)
    requires Spells(parts, ts) && c != '.' && EndsToken(c as int) && (gap == [] || gap == [Gap(" ")])
    ensures Spells([Word(name), Sign(c)] + gap + parts, [Name(name), Punct(c)] + ts)
  {
    hide Spells, Begins;
    if gap == [] {
      assert gap + parts == parts;
    } else {
      GapBefore(" ", parts, ts);
    }
    SignBefore(c, gap + parts, ts);
    SpellsLiteral(IdentLit, name);
    SpellsJoined([Word(name)], [Name(name)], [Sign(c)] + (gap + parts), [Punct(c)] + ts);
    assert [Word(name)] + ([Sign(c)] + (gap + parts)) == [Word(name), Sign(c)] + gap + parts;
    assert [Name(name)] + ([Punct(c)] + ts) == [Name(name), Punct(c)] + ts;
  }

  // ----- literals -----

  lemma {:induction false} LiteralSpells(lit: Literal)
    ensures Spells(LiteralParts(lit), PrintLiteral(lit))
    decreases lit, 1
  {
    hide Spells, Commas, EntryParts, ObjectFieldParts, PrintEntries, PrintFields;
    match lit
    case BasicLit(kind, text) =>
      SpellsLiteral(kind, text);
      if text != "" && text[0] == '-' {
        SpellsLiteral(kind, text[1..]);
        SignBefore('-', [Tok(Lit(kind, text[1..]))], [Lit(kind, text[1..])]);
        assert [Sign('-')] + [Tok(Lit(kind, text[1..]))] == LiteralParts(lit);
        assert [Punct('-')] + [Lit(kind, text[1..])] == PrintLiteral(lit);
      }
    case ListLit(entries) =>
      EntriesSpell(entries);
      CommasSpell(EntryParts(entries), PrintEntries(entries));
      InBrackets('[', Commas(EntryParts(entries)), PrintEntries(entries), ']');
    case ObjectLit(fields) =>
      FieldsSpell(fields);
      CommasSpell(ObjectFieldParts(fields), PrintFields(fields));
      InBrackets('{', Commas(ObjectFieldParts(fields)), PrintFields(fields), '}');
    case NullLit => SpellsLiteral(IdentLit, "null");
    case Variable(name) =>
      SpellsLiteral(IdentLit, name);
      SignBefore('$', [Word(name)], [Name(name)]);
      assert [Sign('$')] + [Word(name)] == LiteralParts(lit) && [Punct('$')] + [Name(name)] == PrintLiteral(lit);
  }

  lemma {:induction false} EntriesSpell(entries: seq<Literal>)
    ensures ItemsSpell(EntryParts(entries), PrintEntries(entries))
    decreases entries, 0
  {
    hide Spells, LiteralParts, PrintLiteral, Standing;
    if entries != [] {
      LiteralSpells(entries[0]);
      EntriesSpell(entries[1..]);
      ItemBefore(LiteralParts(entries[0]), PrintLiteral(entries[0]), EntryParts(entries[1..]),
                 PrintEntries(entries[1..]));
    }
  }

  lemma {:induction false} FieldsSpell(fields: seq<ObjectField>)
    ensures ItemsSpell(ObjectFieldParts(fields), PrintFields(fields))
    decreases fields, 0
  {
    hide Spells, LiteralParts, PrintLiteral, Standing;
    if fields != [] {
      var lit := fields[0].value;
      LiteralSpells(lit);
      FieldsSpell(fields[1..]);
      NamedBefore(fields[0].name, ':', [Gap(" ")], LiteralParts(lit), PrintLiteral(lit));
      var item := [Word(fields[0].name), Sign(':'), Gap(" ")] + LiteralParts(lit);
      assert item == [Word(fields[0].name), Sign(':')] + [Gap(" ")] + LiteralParts(lit);
      ItemBefore(item, [Name(fields[0].name), Punct(':')] + PrintLiteral(lit), ObjectFieldParts(fields[1..]),
                 PrintFields(fields[1..]));
    }
  }

  // ----- arguments and directives -----

  lemma {:induction false} ArgsSpell(args: seq<Argument>)
    ensures ItemsSpell(ArgumentParts(args), PrintArgs(args))
    decreases args, 0
  {
    hide Spells, LiteralParts, PrintLiteral, Standing;
    if args != [] {
      var lit := args[0].value;
      LiteralSpells(lit);
      ArgsSpell(args[1..]);
      NamedBefore(args[0].name, ':', [], LiteralParts(lit), PrintLiteral(lit));
      var item := [Word(args[0].name), Sign(':')] + LiteralParts(lit);
      assert item == [Word(args[0].name), Sign(':')] + [] + LiteralParts(lit);
      ItemBefore(item, PrintArgument(args[0]), ArgumentParts(args[1..]), PrintArgs(args[1..]));
    }
  }

  lemma ArgumentsSpell(args: seq<Argument>)
    ensures Spells(ArgumentsParts(args), PrintArguments(args)) && Begins(ArgumentsParts(args))
  {
    hide Spells, Begins, ArgumentParts, PrintArgs, Commas;
    SpellsNothing();
    if args != [] {
      ArgsSpell(args);
      CommasSpell(ArgumentParts(args), PrintArgs(args));
      InBrackets('(', Commas(ArgumentParts(args)), PrintArgs(args), ')');
    }
  }

  lemma DirectiveSpells(d: Directive)
    ensures Spells([Sign('@'), Word(d.name)] + ArgumentsParts(d.args), PrintDirective(d))
  {
    hide Spells, Begins, ArgumentsParts, PrintArguments;
    var parts, ts := ArgumentsParts(d.args), PrintArguments(d.args);
    ArgumentsSpell(d.args);
    SpellsLiteral(IdentLit, d.name);
    SpellsJoined([Word(d.name)], [Name(d.name)], parts, ts);
    SignBefore('@', [Word(d.name)] + parts, [Name(d.name)] + ts);
    assert [Sign('@')] + ([Word(d.name)] + parts) == [Sign('@'), Word(d.name)] + parts;
    assert [Punct('@')] + ([Name(d.name)] + ts) == PrintDirective(d);
  }

  lemma {:induction false} DirectiveItemsSpell(ds: seq<Directive>)
    ensures ItemsSpell(DirectiveParts(ds), PrintDirectives(ds))
  {
    hide Spells, ArgumentsParts, PrintDirective, Standing;
    if ds != [] {
      DirectiveSpells(ds[0]);
      DirectiveItemsSpell(ds[1..]);
      ItemBefore([Sign('@'), Word(ds[0].name)] + ArgumentsParts(ds[0].args), PrintDirective(ds[0]),
                 DirectiveParts(ds[1..]), PrintDirectives(ds[1..]));
    }
  }

  lemma DirectivesSpell(ds: seq<Directive>)
    ensures Spells(DirectivesParts(ds), PrintDirectives(ds)) && Begins(DirectivesParts(ds))
  {
    hide Spells, PrintDirectives, Begins, ArgumentsParts;
    DirectiveItemsSpell(ds);
    CommasSpell(DirectiveParts(ds), PrintDirectives(ds));
    SpellsNothing();
    if ds != [] {
      var parts := DirectivesParts(ds);
      var rest := [Word(ds[0].name)] + ArgumentsParts(ds[0].args) + Following(DirectiveParts(ds[1..]));
      assert parts == [Sign('@')] + rest;
      SignBegins('@', rest);
    }
  }

  lemma SignBegins(c: char, rest: seq<Part>)
    requires EndsToken(c as int)
    ensures Begins([Sign(c)] + rest)
  {
  }

  // ----- types and variables -----

  lemma {:induction false} TypeSpells(t: Type)
    ensures Spells(TypeParts(t), PrintType(t))
  {
    hide Spells, Begins;
    match t
    case Named(name) => SpellsLiteral(IdentLit, name);
    case ListOf(of) =>
      TypeSpells(of);
      InBrackets('[', TypeParts(of), PrintType(of), ']');
    case NonNullOf(of) =>
      TypeSpells(of);
      SpellsSign('!');
      SpellsJoined(TypeParts(of), PrintType(of), [Sign('!')], [Punct('!')]);
  }

  lemma VariableNameSpells(name: string)
    ensures Spells(VariableNameParts(name), PrintVariableName(name))
  {
    hide Spells, Begins;
    if name != "" && name[0] == '$' {
      SpellsLiteral(IdentLit, name[1..]);
      SignBefore('$', [Word(name[1..])], [Name(name[1..])]);
      assert [Sign('$')] + [Word(name[1..])] == VariableNameParts(name);
      assert [Punct('$')] + [Name(name[1..])] == PrintVariableName(name);
    } else {
      SpellsLiteral(IdentLit, name);
    }
  }

  lemma DefaultSpells(d: Option<Literal>)
    ensures Spells(DefaultParts(d), PrintDefault(d)) && Begins(DefaultParts(d))
  {
    hide Spells, Begins;
    SpellsNothing();
    if d.Some? {
      LiteralSpells(d.value);
      SignBefore('=', LiteralParts(d.value), PrintLiteral(d.value));
    }
  }

  lemma VariableSpells(v: InputValue)
    ensures Spells(VariableParts(v), PrintVariable(v))
  {
    hide Spells, Begins, VariableNameParts, PrintVariableName, TypeParts, PrintType, DefaultParts, PrintDefault;
    VariableNameSpells(v.name);
    SpellsSign(':');
    TypeSpells(v.typ);
    DefaultSpells(v.default);
    var a, b, c := VariableNameParts(v.name), TypeParts(v.typ), DefaultParts(v.default);
    var x, y, z := PrintVariableName(v.name), PrintType(v.typ), PrintDefault(v.default);
    SpellsJoined(a, x, [Sign(':')], [Punct(':')]);
    SpellsSigned(a, x, ':', b, y);
    SpellsJoined(a + [Sign(':')] + b, x + [Punct(':')] + y, c, z);
  }

  lemma SpellsSigned(a: seq<Part>, x: seq<Token>, c: char, b: seq<Part>, y: seq<Token>)
    requires Spells(a, x) && Spells(b, y) && c != '.' && EndsToken(c as int)
    ensures Spells(a + [Sign(c)] + b, x + [Punct(c)] + y)
  {
    hide Spells, Begins;
    SignBefore(c, b, y);
    SpellsJoined(a, x, [Sign(c)] + b, [Punct(c)] + y);
    assert a + ([Sign(c)] + b) == a + [Sign(c)] + b && x + ([Punct(c)] + y) == x + [Punct(c)] + y;
  }

  lemma {:induction false} VarsSpell(vars: seq<InputValue>)
    ensures ItemsSpell(VarParts(vars), PrintVars(vars))
  {
    hide Spells, VariableParts, PrintVariable, Standing;
    if vars != [] {
      VariableSpells(vars[0]);
      VarsSpell(vars[1..]);
      ItemBefore(VariableParts(vars[0]), PrintVariable(vars[0]), VarParts(vars[1..]), PrintVars(vars[1..]));
    }
  }

  // ----- lines -----

  lemma LineSpells(parts: seq<Part>, ts: seq<Token>)
    requires Spells(parts, ts)
    ensures Spells(Line(parts), HangTokens(ts)) && Begins(Line(parts))
  {
    hide Begins;
    var hung := HangParts(parts);
    HungParts(parts);
    forall after | Ends(after)
      ensures Separated(hung + [Gap("\n")], after)
    {
      assert Ends("\n");
      HungApart(parts, "\n", "\n" + after);
      assert Text([Gap("\n")]) == "\n";
      SeparatedJoined(hung, [Gap("\n")], after);
    }
    TextJoined(hung, [Gap("\n")]);
    GapBefore(INDENT, hung + [Gap("\n")], HangTokens(ts));
    assert Line(parts) == [Gap(INDENT)] + (hung + [Gap("\n")]);
  }

  lemma {:induction false} VarLinesSpell(vars: seq<InputValue>)
    ensures Spells(VarLines(vars), HangTokens(PrintVars(vars))) && Begins(VarLines(vars))
  {
    hide Spells, Begins, VariableParts, PrintVariable, Line;
    SpellsNothing();
    if vars != [] {
      var comma := if |vars| == 1 then [] else [Gap(",")];
      VariableSpells(vars[0]);
      SpellsGap(",");
      SpellsJoined(VariableParts(vars[0]), PrintVariable(vars[0]), comma, []);
      assert PrintVariable(vars[0]) + [] == PrintVariable(vars[0]);
      var line := Line(VariableParts(vars[0]) + comma);
      LineSpells(VariableParts(vars[0]) + comma, PrintVariable(vars[0]));
      VarLinesSpell(vars[1..]);
      SpellsJoined(line, HangTokens(PrintVariable(vars[0])), VarLines(vars[1..]), HangTokens(PrintVars(vars[1..])));
      HangTokensJoined(PrintVariable(vars[0]), PrintVars(vars[1..]));
    }
  }

  // ----- tokens that can be read -----

  ghost predicate Readable(ident: ScannerSpec.Identifies, ts: seq<Token>) {
    Ordinary(ident) && AllLexical(ident, ts)
  }

  lemma ReadableJoined(ident: ScannerSpec.Identifies, a: seq<Token>, b: seq<Token>)
    ensures Readable(ident, a + b) <==> Readable(ident, a) && Readable(ident, b)
  {
    hide Lexical, Ordinary;
    assert forall t :: t in a + b <==> t in a || t in b;
  }

  lemma ReadableBrackets(ident: ScannerSpec.Identifies, open: char, ts: seq<Token>, close: char)
    ensures Readable(ident, [Punct(open)] + ts + [Punct(close)]) ==> Readable(ident, ts)
    ensures Punctuator(open as int) && Punctuator(close as int) && Readable(ident, ts) ==>
              Readable(ident, [Punct(open)] + ts + [Punct(close)])
  {
    hide Ordinary, Lexeme;
    ReadableJoined(ident, [Punct(open)] + ts, [Punct(close)]);
    ReadableJoined(ident, [Punct(open)], ts);
  }

  /** They can be read under indentation as well. */
  lemma {:induction false} ReadableHung(ident: ScannerSpec.Identifies, ts: seq<Token>)
    requires Readable(ident, ts)
    ensures Readable(ident, HangTokens(ts)) && NamesKept(ts)
    decreases ts
  {
    hide Lexical, Ordinary, HangToken;
    if ts != [] {
      HungIsLexical(ident, ts[0]);
      assert ts == [ts[0]] + ts[1..];
      ReadableJoined(ident, [ts[0]], ts[1..]);
      ReadableHung(ident, ts[1..]);
      assert [ts[0]][0] in [ts[0]];
    }
  }

  /** Variables on lines of their own are indented with their literals. */
  lemma VariablesSpell(ident: ScannerSpec.Identifies, vars: seq<InputValue>)
    requires Readable(ident, PrintVariables(vars))
    ensures Spells(VariablesParts(vars), PrintVariables(LaidVars(vars))) && Begins(VariablesParts(vars))
    ensures Readable(ident, PrintVariables(LaidVars(vars)))
  {
    hide Spells, Begins, VarLines, VarParts, PrintVars, Commas, HangTokens, SomeLine, Readable;
    SpellsNothing();
    HangVarsCount(vars);
    if vars != [] {
      ReadableBrackets(ident, '(', PrintVars(vars), ')');
      if SomeLine(VarParts(vars)) {
        ReadableHung(ident, PrintVars(vars));
        HungVars(vars);
        ReadableBrackets(ident, '(', PrintVars(HangVars(vars)), ')');
        VarLinesSpell(vars);
        GapBefore("\n", VarLines(vars), PrintVars(HangVars(vars)));
        InBrackets('(', [Gap("\n")] + VarLines(vars), PrintVars(HangVars(vars)), ')');
        assert [Sign('(')] + ([Gap("\n")] + VarLines(vars)) == [Sign('('), Gap("\n")] + VarLines(vars);
      } else {
        VarsSpell(vars);
        CommasSpell(VarParts(vars), PrintVars(vars));
        InBrackets('(', Commas(VarParts(vars)), PrintVars(vars), ')');
      }
    }
  }

  lemma HangVarsCount(vars: seq<InputValue>)
    ensures HangVars(vars) == [] <==> vars == []
  {
  }

  // ----- selections -----

  lemma OptionalNameSpells(name: string)
    ensures Spells(OptionalName(name), PrintOptionalName(name))
  {
    SpellsNothing();
    SpellsLiteral(IdentLit, name);
  }

  lemma SpellsThree(a: seq<Part>, x: seq<Token>, b: seq<Part>, y: seq<Token>, c: seq<Part>, z: seq<Token>)
    requires Spells(a, x) && Spells(b, y) && Spells(c, z) && Begins(b) && Begins(c)
    ensures Spells(a + b + c, x + y + z)
  {
    hide Spells, Begins;
    SpellsJoined(a, x, b, y);
    SpellsJoined(a + b, x + y, c, z);
  }

  lemma FieldNameSpells(alias: string, name: string)
    ensures Spells([Word(alias)] + (if name != alias then [Sign(':'), Word(name)] else []),
                   [Name(alias)] + (if name != alias then [Punct(':'), Name(name)] else []))
  {
    hide Spells, Begins;
    SpellsLiteral(IdentLit, alias);
    SpellsLiteral(IdentLit, name);
    if name != alias {
      SpellsSigned([Word(alias)], [Name(alias)], ':', [Word(name)], [Name(name)]);
      assert [Word(alias)] + [Sign(':')] + [Word(name)] == [Word(alias)] + [Sign(':'), Word(name)];
      assert [Name(alias)] + [Punct(':')] + [Name(name)] == [Name(alias)] + [Punct(':'), Name(name)];
    } else {
      assert [Word(alias)] + [] == [Word(alias)] && [Name(alias)] + [] == [Name(alias)];
    }
  }

  lemma DotsSpell(name: string)
    ensures Spells([Sign('.'), Sign('.'), Sign('.'), Word(name)], [Punct('.'), Punct('.'), Punct('.'), Name(name)])
  {
    SpellsLiteral(IdentLit, name);
    var one := [Word(name)];
    var two := [Sign('.')] + one;
    var three := [Sign('.')] + two;
    PointBefore(one, [Name(name)]);
    PointBefore(two, [Punct('.'), Name(name)]);
    PointBefore(three, [Punct('.'), Punct('.'), Name(name)]);
    assert [Sign('.')] + three == [Sign('.'), Sign('.'), Sign('.'), Word(name)];
  }

  /** A point before another, before a name, or before a gap. */
  lemma PointBefore(parts: seq<Part>, ts: seq<Token>)
    requires Spells(parts, ts) && parts != []
    requires parts[0] == Sign('.') || parts[0] == Gap(" ") ||
             (parts[0].Tok? && parts[0].token.Lit? && parts[0].token.kind == IdentLit)
    ensures Spells([Sign('.')] + parts, [Punct('.')] + ts)
  {
    var more := [Sign('.')] + parts;
    assert more[1..] == parts;
    forall after | Ends(after)
      ensures Separated(more, after)
    {
      assert Separated(parts, after);
    }
  }

  /** Three points, the word "on" and a name, perhaps. */
  lemma OnSpells(on: string)
    ensures Spells([Sign('.'), Sign('.'), Sign('.'), Gap(" "), Word("on"), Gap(" ")] + OptionalName(on),
                   [Punct('.'), Punct('.'), Punct('.'), Name("on")] + PrintOptionalName(on))
  {
    hide Spells, Begins, OptionalName, PrintOptionalName;
    var name, ts := OptionalName(on), PrintOptionalName(on);
    OptionalNameSpells(on);
    GapBefore(" ", name, ts);
    SpellsLiteral(IdentLit, "on");
    SpellsJoined([Word("on")], [Name("on")], [Gap(" ")] + name, ts);
    var zero := [Gap(" ")] + ([Word("on")] + ([Gap(" ")] + name));
    var us := [Name("on")] + ts;
    GapBefore(" ", [Word("on")] + ([Gap(" ")] + name), us);
    PointBefore(zero, us);
    PointBefore([Sign('.')] + zero, [Punct('.')] + us);
    PointBefore([Sign('.')] + ([Sign('.')] + zero), [Punct('.')] + ([Punct('.')] + us));
    assert [Sign('.')] + ([Sign('.')] + ([Sign('.')] + zero)) ==
           [Sign('.'), Sign('.'), Sign('.'), Gap(" "), Word("on"), Gap(" ")] + name;
    assert [Punct('.')] + ([Punct('.')] + ([Punct('.')] + us)) == [Punct('.'), Punct('.'), Punct('.'), Name("on")] + ts;
  }

  /** A selection is spelled with the selections below it indented. */
  lemma {:induction false} SelectionSpells(ident: ScannerSpec.Identifies, s: Selection)
    requires Readable(ident, PrintSelection(s))
    ensures Spells(SelectionParts(s), PrintSelection(LaidSelection(s))) &&
            Readable(ident, PrintSelection(LaidSelection(s)))
    decreases s, 1
  {
    hide Spells, Begins, ArgumentsParts, DirectivesParts, SetParts, PrintArguments, PrintDirectives, PrintSelectionSet;
    hide HangTokens, OptionalName, PrintOptionalName, Readable, LaidSelections;
    match s
    case Field(f) =>
      var a := [Word(f.alias)] + (if f.name != f.alias then [Sign(':'), Word(f.name)] else []);
      var x := [Name(f.alias)] + (if f.name != f.alias then [Punct(':'), Name(f.name)] else []);
      FieldNameSpells(f.alias, f.name);
      ArgumentsSpell(f.args);
      SpellsJoined(a, x, ArgumentsParts(f.args), PrintArguments(f.args));
      DirectivesSpell(f.directives);
      var most := x + PrintArguments(f.args) + PrintDirectives(f.directives);
      var sels := LaidSelections(f.selections);
      ReadableJoined(ident, most, PrintSelectionSet(f.selections));
      SetSpells(ident, f.selections);
      ReadableJoined(ident, most, PrintSelectionSet(sels));
      SpellsThree(a + ArgumentsParts(f.args), x + PrintArguments(f.args), DirectivesParts(f.directives),
                  PrintDirectives(f.directives), SetParts(f.selections), PrintSelectionSet(sels));
    case Spread(name, directives) =>
      DotsSpell(name);
      DirectivesSpell(directives);
      SpellsJoined([Sign('.'), Sign('.'), Sign('.'), Word(name)], [Punct('.'), Punct('.'), Punct('.'), Name(name)],
                   DirectivesParts(directives), PrintDirectives(directives));
    case Inline(on, directives, sels) =>
      var a := [Sign('.'), Sign('.'), Sign('.'), Gap(" "), Word("on"), Gap(" ")] + OptionalName(on);
      var x := [Punct('.'), Punct('.'), Punct('.'), Name("on")] + PrintOptionalName(on);
      OnSpells(on);
      DirectivesSpell(directives);
      ReadableJoined(ident, x + PrintDirectives(directives), PrintSelectionSet(sels));
      SetSpells(ident, sels);
      ReadableJoined(ident, x + PrintDirectives(directives), PrintSelectionSet(LaidSelections(sels)));
      SpellsThree(a, x, DirectivesParts(directives), PrintDirectives(directives), SetParts(sels),
                  PrintSelectionSet(LaidSelections(sels)));
  }

  lemma {:induction false} LinesSpell(ident: ScannerSpec.Identifies, sels: seq<Selection>)
    requires Readable(ident, PrintSelections(sels))
    ensures Spells(SelectionLines(sels), PrintSelections(LaidSelections(sels))) && Begins(SelectionLines(sels))
    ensures Readable(ident, PrintSelections(LaidSelections(sels)))
    decreases sels, 0
  {
    hide Spells, Begins, SelectionParts, PrintSelection, Line, HangTokens, HangSelection, LaidSelection;
    SpellsNothing();
    if sels != [] {
      ReadableJoined(ident, PrintSelection(sels[0]), PrintSelections(sels[1..]));
      var first := LaidSelection(sels[0]);
      var rest := LaidSelections(sels[1..]);
      SelectionSpells(ident, sels[0]);
      LineSpells(SelectionParts(sels[0]), PrintSelection(first));
      ReadableHung(ident, PrintSelection(first));
      HungSelection(first);
      LinesSpell(ident, sels[1..]);
      SpellsJoined(Line(SelectionParts(sels[0])), PrintSelection(HangSelection(first)), SelectionLines(sels[1..]),
                   PrintSelections(rest));
      ReadableJoined(ident, PrintSelection(HangSelection(first)), PrintSelections(rest));
      assert LaidSelections(sels)[1..] == rest;
    }
  }

  lemma SetSpells(ident: ScannerSpec.Identifies, sels: seq<Selection>)
    requires Readable(ident, PrintSelectionSet(sels))
    ensures Spells(SetParts(sels), PrintSelectionSet(LaidSelections(sels))) && Begins(SetParts(sels))
    ensures Readable(ident, PrintSelectionSet(LaidSelections(sels)))
    decreases sels, 1
  {
    hide Spells, Begins, SelectionLines, PrintSelections, Readable;
    SpellsNothing();
    if sels != [] {
      ReadableBrackets(ident, '{', PrintSelections(sels), '}');
      LinesSpell(ident, sels);
      var ts := PrintSelections(LaidSelections(sels));
      ReadableBrackets(ident, '{', ts, '}');
      BracedLines(SelectionLines(sels), ts);
    }
  }

  lemma BracedLines(lines: seq<Part>, ts: seq<Token>)
    requires Spells(lines, ts)
    ensures Spells([Gap(" "), Sign('{'), Gap("\n")] + lines + [Sign('}')], [Punct('{')] + ts + [Punct('}')])
    ensures Begins([Gap(" "), Sign('{'), Gap("\n")] + lines + [Sign('}')])
  {
    hide Spells, Begins;
    GapBefore("\n", lines, ts);
    InBrackets('{', [Gap("\n")] + lines, ts, '}');
    var braced := [Sign('{')] + ([Gap("\n")] + lines) + [Sign('}')];
    GapBefore(" ", braced, [Punct('{')] + ts + [Punct('}')]);
    assert [Gap(" ")] + braced == [Gap(" "), Sign('{'), Gap("\n")] + lines + [Sign('}')];
  }

  // ----- documents -----

  lemma SpacedNameSpells(name: string)
    ensures Spells(SpacedName(name), PrintOptionalName(name)) && Begins(SpacedName(name))
  {
    hide Spells, Begins;
    SpellsNothing();
    if name != "" {
      SpellsLiteral(IdentLit, name);
      GapBefore(" ", [Word(name)], [Name(name)]);
      assert [Gap(" ")] + [Word(name)] == SpacedName(name);
    }
  }

  lemma OperationSpells(ident: ScannerSpec.Identifies, op: Operation)
    requires Readable(ident, PrintOperation(op))
    ensures Spells(OperationParts(op), PrintOperation(LaidOperation(op))) &&
            Readable(ident, PrintOperation(LaidOperation(op)))
  {
    hide Spells, Begins, DirectivesParts, VariablesParts, SetParts, PrintDirectives, PrintVariables, PrintSelectionSet;
    hide HangTokens, SpacedName, PrintOptionalName, Readable, LaidVars, LaidSelections;
    var word, w := [Word(OperationWord(op.op))], [Name(OperationWord(op.op))];
    var a, b, c, d := SpacedName(op.name), DirectivesParts(op.directives), VariablesParts(op.vars),
                      SetParts(op.selections);
    var x, y := PrintOptionalName(op.name), PrintDirectives(op.directives);
    var z, t := PrintVariables(LaidVars(op.vars)), PrintSelectionSet(LaidSelections(op.selections));
    SpellsLiteral(IdentLit, OperationWord(op.op));
    SpacedNameSpells(op.name);
    SpellsJoined(word, w, a, x);
    DirectivesSpell(op.directives);
    ReadableJoined(ident, w + x + y + PrintVariables(op.vars), PrintSelectionSet(op.selections));
    ReadableJoined(ident, w + x + y, PrintVariables(op.vars));
    VariablesSpell(ident, op.vars);
    SpellsThree(word + a, w + x, b, y, c, z);
    SetSpells(ident, op.selections);
    SpellsJoined(word + a + b + c, w + x + y + z, d, t);
    ReadableJoined(ident, w + x + y + z, t);
    ReadableJoined(ident, w + x + y, z);
  }

  lemma FragmentHeadSpells(f: Fragment)
    ensures Spells([Word("fragment")] + SpacedName(f.name) + [Gap(" "), Word("on"), Gap(" ")] + OptionalName(f.on),
                   [Name("fragment")] + PrintOptionalName(f.name) + [Name("on")] + PrintOptionalName(f.on))
  {
    hide Spells, Begins, SpacedName, OptionalName, PrintOptionalName;
    var a, x := [Word("fragment")] + SpacedName(f.name), [Name("fragment")] + PrintOptionalName(f.name);
    var b, y := OptionalName(f.on), PrintOptionalName(f.on);
    SpellsLiteral(IdentLit, "fragment");
    SpacedNameSpells(f.name);
    SpellsJoined([Word("fragment")], [Name("fragment")], SpacedName(f.name), PrintOptionalName(f.name));
    OptionalNameSpells(f.on);
    GapBefore(" ", b, y);
    SpellsLiteral(IdentLit, "on");
    SpellsJoined([Word("on")], [Name("on")], [Gap(" ")] + b, y);
    GapBefore(" ", [Word("on")] + ([Gap(" ")] + b), [Name("on")] + y);
    SpellsJoined(a, x, [Gap(" ")] + ([Word("on")] + ([Gap(" ")] + b)), [Name("on")] + y);
    assert a + ([Gap(" ")] + ([Word("on")] + ([Gap(" ")] + b))) == a + [Gap(" "), Word("on"), Gap(" ")] + b;
    assert x + ([Name("on")] + y) == x + [Name("on")] + y;
  }

  lemma FragmentSpells(ident: ScannerSpec.Identifies, f: Fragment)
    requires Readable(ident, PrintFragment(f))
    ensures Spells(FragmentParts(f), PrintFragment(LaidFragment(f))) && Readable(ident, PrintFragment(LaidFragment(f)))
  {
    hide Spells, Begins, DirectivesParts, SetParts, PrintDirectives, PrintSelectionSet;
    hide HangTokens, SpacedName, OptionalName, PrintOptionalName, Readable, LaidSelections;
    var a := [Word("fragment")] + SpacedName(f.name) + [Gap(" "), Word("on"), Gap(" ")] + OptionalName(f.on);
    var x := [Name("fragment")] + PrintOptionalName(f.name) + [Name("on")] + PrintOptionalName(f.on);
    var y, z := PrintDirectives(f.directives), PrintSelectionSet(LaidSelections(f.selections));
    FragmentHeadSpells(f);
    DirectivesSpell(f.directives);
    ReadableJoined(ident, x + y, PrintSelectionSet(f.selections));
    SetSpells(ident, f.selections);
    SpellsThree(a, x, DirectivesParts(f.directives), y, SetParts(f.selections), z);
    ReadableJoined(ident, x + y, z);
  }

  /** Behind a definition comes a line feed, whatever follows. */
  lemma DefinitionBefore(a: seq<Part>, x: seq<Token>, b: seq<Part>, y: seq<Token>)
    requires Spells(a, x) && Separated(b, "") && TokensIn(b) == y
    ensures Separated(a + [Gap("\n")] + b, "") && TokensIn(a + [Gap("\n")] + b) == x + y
  {
    hide Text, Separated, TokensIn, Ends;
    var more := [Gap("\n")] + b;
    assert a + [Gap("\n")] + b == a + more;
    FeedAhead(b);
    SeparatedJoined(a, more, "");
    TextJoined(a, more);
  }

  lemma FeedAhead(b: seq<Part>)
    requires Separated(b, "")
    ensures (var more := [Gap("\n")] + b;
             Separated(more, "") && Ends(Text(more) + "") && TokensIn(more) == TokensIn(b))
  {
    var more := [Gap("\n")] + b;
    assert more[1..] == b;
    assert IsGap("\n");
    assert PartText(more[0]) == "\n";
    assert Text(more) == "\n" + Text(b);
    assert Text(more) + "" == Text(more) && Text(b) + "" == Text(b);
    assert TokensIn(more) == [] + TokensIn(b) == TokensIn(b);
  }

  lemma {:induction false} FragmentsSpell(ident: ScannerSpec.Identifies, fs: seq<Fragment>)
    requires Readable(ident, PrintFragments(fs))
    ensures Separated(FragmentsParts(fs), "") && TokensIn(FragmentsParts(fs)) == PrintFragments(LaidFragments(fs))
    ensures Readable(ident, PrintFragments(LaidFragments(fs)))
    decreases fs
  {
    hide Spells, FragmentParts, PrintFragment, HangTokens, Readable, LaidFragment;
    if fs != [] {
      ReadableJoined(ident, PrintFragment(fs[0]), PrintFragments(fs[1..]));
      FragmentSpells(ident, fs[0]);
      FragmentsSpell(ident, fs[1..]);
      var first, rest := LaidFragment(fs[0]), LaidFragments(fs[1..]);
      DefinitionBefore(FragmentParts(fs[0]), PrintFragment(first), FragmentsParts(fs[1..]), PrintFragments(rest));
      assert LaidFragments(fs)[1..] == rest;
      ReadableJoined(ident, PrintFragment(first), PrintFragments(rest));
    }
  }

  lemma {:induction false} OperationsSpell(ident: ScannerSpec.Identifies, ops: seq<Operation>, rest: seq<Part>)
    requires Readable(ident, PrintOperations(ops)) && Separated(rest, "")
    ensures Separated(OperationsParts(ops) + rest, "")
    ensures TokensIn(OperationsParts(ops) + rest) == PrintOperations(LaidOperations(ops)) + TokensIn(rest)
    ensures Readable(ident, PrintOperations(LaidOperations(ops)))
    decreases ops
  {
    hide Spells, OperationParts, PrintOperation, HangTokens, Readable, LaidOperation;
    if ops == [] {
      assert [] + rest == rest && [] + TokensIn(rest) == TokensIn(rest);
    } else {
      ReadableJoined(ident, PrintOperation(ops[0]), PrintOperations(ops[1..]));
      OperationSpells(ident, ops[0]);
      OperationsSpell(ident, ops[1..], rest);
      var first, laid := LaidOperation(ops[0]), LaidOperations(ops[1..]);
      var more := OperationsParts(ops[1..]) + rest;
      DefinitionBefore(OperationParts(ops[0]), PrintOperation(first), more, PrintOperations(laid) + TokensIn(rest));
      assert OperationsParts(ops) + rest == OperationParts(ops[0]) + [Gap("\n")] + more;
      assert LaidOperations(ops)[1..] == laid;
      ReadableJoined(ident, PrintOperation(first), PrintOperations(laid));
    }
  }

  /** The text of a document is its tokens, none running into the next, with the literals as they are laid out. */
  lemma DocumentSpells(ident: ScannerSpec.Identifies, doc: Document)
    requires Readable(ident, Print(doc))
    ensures Separated(DocumentParts(doc), "") && TokensIn(DocumentParts(doc)) == Print(Laid(doc))
    ensures Readable(ident, Print(Laid(doc)))
  {
    hide OperationsParts, FragmentsParts, PrintOperations, PrintFragments, HangTokens, Readable, LaidOperations,
         LaidFragments;
    ReadableJoined(ident, PrintOperations(doc.operations), PrintFragments(doc.fragments));
    FragmentsSpell(ident, doc.fragments);
    OperationsSpell(ident, doc.operations, FragmentsParts(doc.fragments));
    ReadableJoined(ident, PrintOperations(LaidOperations(doc.operations)),
                   PrintFragments(LaidFragments(doc.fragments)));
  }
}
