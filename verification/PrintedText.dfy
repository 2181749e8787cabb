/**
 The text the formatter writes for a query document, part by part, and the tokens
 in it.
 */
module PrintedText {
  import opened Wrappers
  import opened Query
  import opened Syntax
  import opened Printing
  import opened TextScan
  import opened Indentation

  const INDENT := "  "

  function Sign(c: char): Part {
    Tok(Punct(c))
  }

  function Word(s: string): Part {
    Tok(Name(s))
  }

  // ----- lists -----

  function Following(items: seq<seq<Part>>): seq<Part> {
    if items == [] then [] else [Gap(", ")] + items[0] + Following(items[1..])
  }

  /** One after another, with commas between them. */
  function Commas(items: seq<seq<Part>>): seq<Part> {
    if items == [] then [] else items[0] + Following(items[1..])
  }

  // ----- literals -----

  function BasicParts(kind: LiteralKind, text: string): seq<Part> {
    if text != "" && text[0] == '-' then [Sign('-'), Tok(Lit(kind, text[1..]))] else [Tok(Lit(kind, text))]
  }

  function LiteralParts(lit: Literal): seq<Part> {
    match lit
    case BasicLit(kind, text) => BasicParts(kind, text)
    case ListLit(entries) => [Sign('[')] + Commas(EntryParts(entries)) + [Sign(']')]
    case ObjectLit(fields) => [Sign('{')] + Commas(ObjectFieldParts(fields)) + [Sign('}')]
    case NullLit => [Word("null")]
    case Variable(name) => [Sign('$'), Word(name)]
  }

  function EntryParts(entries: seq<Literal>): seq<seq<Part>> {
    if entries == [] then [] else [LiteralParts(entries[0])] + EntryParts(entries[1..])
  }

  function ObjectFieldParts(fields: seq<ObjectField>): seq<seq<Part>> {
    if fields == [] then []
    else [[Word(fields[0].name), Sign(':'), Gap(" ")] + LiteralParts(fields[0].value)] + ObjectFieldParts(fields[1..])
  }

  // ----- arguments and directives -----

  function ArgumentParts(args: seq<Argument>): seq<seq<Part>> {
    if args == [] then []
    else [[Word(args[0].name), Sign(':')] + LiteralParts(args[0].value)] + ArgumentParts(args[1..])
  }

  function ArgumentsParts(args: seq<Argument>): seq<Part> {
    if args == [] then [] else [Sign('(')] + Commas(ArgumentParts(args)) + [Sign(')')]
  }

  function DirectiveParts(ds: seq<Directive>): seq<seq<Part>> {
    if ds == [] then [] else [[Sign('@'), Word(ds[0].name)] + ArgumentsParts(ds[0].args)] + DirectiveParts(ds[1..])
  }

  function DirectivesParts(ds: seq<Directive>): seq<Part> {
    Commas(DirectiveParts(ds))
  }

  // ----- types and variables -----

  function TypeParts(t: Type): seq<Part> {
    match t
    case Named(name) => [Word(name)]
    case ListOf(of) => [Sign('[')] + TypeParts(of) + [Sign(']')]
    case NonNullOf(of) => TypeParts(of) + [Sign('!')]
  }

  function VariableNameParts(name: string): seq<Part> {
    if name != "" && name[0] == '$' then [Sign('$'), Word(name[1..])] else [Word(name)]
  }

  function DefaultParts(d: Option<Literal>): seq<Part> {
    if d.Some? then [Sign('=')] + LiteralParts(d.value) else []
  }

  function VariableParts(v: InputValue): seq<Part> {
    VariableNameParts(v.name) + [Sign(':')] + TypeParts(v.typ) + DefaultParts(v.default)
  }

  function VarParts(vars: seq<InputValue>): seq<seq<Part>> {
    if vars == [] then [] else [VariableParts(vars[0])] + VarParts(vars[1..])
  }

  /** A line of its own for each, with commas between them. */
  function VarLines(vars: seq<InputValue>): seq<Part> {
    if vars == [] then []
    else Line(VariableParts(vars[0]) + if |vars| == 1 then [] else [Gap(",")]) + VarLines(vars[1..])
  }

  predicate SomeLine(items: seq<seq<Part>>) {
    exists i :: 0 <= i < |items| && '\n' in Text(items[i])
  }

  /** On one line, unless a variable takes up more than one. */
  function VariablesParts(vars: seq<InputValue>): seq<Part> {
    if vars == [] then []
    else if SomeLine(VarParts(vars)) then [Sign('('), Gap("\n")] + VarLines(vars) + [Sign(')')]
    else [Sign('(')] + Commas(VarParts(vars)) + [Sign(')')]
  }

  // ----- lines -----

  /** A token with line feeds in it, indented; a line feed at its end stays the end of the token. */
  function HangText(text: string): string {
    if EndsLine(text) then Hang(text[..|text| - 1], INDENT) + "\n" else Hang(text, INDENT)
  }

  function HangToken(t: Token): Token {
    match t
    case Punct(_) => t
    case Lit(kind, text) => Lit(kind, HangText(text))
  }

  function HangPart(p: Part): seq<Part> {
    match p
    case Gap(text) => [Gap(Hang(text, INDENT))]
    case Tok(t) => [Tok(HangToken(t))] + if EndsLine(TokenText(t)) then [Gap(INDENT)] else []
  }

  /** The parts of the text that has the indentation after every line feed. */
  function HangParts(parts: seq<Part>): seq<Part> {
    if parts == [] then [] else HangPart(parts[0]) + HangParts(parts[1..])
  }

  function Line(parts: seq<Part>): seq<Part> {
    [Gap(INDENT)] + HangParts(parts) + [Gap("\n")]
  }

  // ----- selections -----

  function OptionalName(name: string): seq<Part> {
    if name == "" then [] else [Word(name)]
  }

  /** Without the line feed behind it. */
  function SelectionParts(s: Selection): seq<Part>
    decreases s, 1
  {
    match s
    case Field(f) =>
      [Word(f.alias)] + (if f.name != f.alias then [Sign(':'), Word(f.name)] else []) +
      ArgumentsParts(f.args) + DirectivesParts(f.directives) + SetParts(f.selections)
    case Spread(name, directives) =>
      [Sign('.'), Sign('.'), Sign('.'), Word(name)] + DirectivesParts(directives)
    case Inline(on, directives, sels) =>
      [Sign('.'), Sign('.'), Sign('.'), Gap(" "), Word("on"), Gap(" ")] + OptionalName(on) +
      DirectivesParts(directives) + SetParts(sels)
  }

  /** One line, or more, for each. */
  function SelectionLines(sels: seq<Selection>): seq<Part>
    decreases sels, 0
  {
    if sels == [] then [] else Line(SelectionParts(sels[0])) + SelectionLines(sels[1..])
  }

  function SetParts(sels: seq<Selection>): seq<Part>
    decreases sels, 1
  {
    if sels == [] then [] else [Gap(" "), Sign('{'), Gap("\n")] + SelectionLines(sels) + [Sign('}')]
  }

  // ----- documents -----

  function SpacedName(name: string): seq<Part> {
    if name == "" then [] else [Gap(" "), Word(name)]
  }

  function OperationParts(op: Operation): seq<Part> {
    [Word(OperationWord(op.op))] + SpacedName(op.name) + DirectivesParts(op.directives) + VariablesParts(op.vars) +
    SetParts(op.selections)
  }

  function FragmentParts(f: Fragment): seq<Part> {
    [Word("fragment")] + SpacedName(f.name) + [Gap(" "), Word("on"), Gap(" ")] + OptionalName(f.on) +
    DirectivesParts(f.directives) + SetParts(f.selections)
  }

  function OperationsParts(ops: seq<Operation>): seq<Part> {
    if ops == [] then [] else OperationParts(ops[0]) + [Gap("\n")] + OperationsParts(ops[1..])
  }

  function FragmentsParts(fs: seq<Fragment>): seq<Part> {
    if fs == [] then [] else FragmentParts(fs[0]) + [Gap("\n")] + FragmentsParts(fs[1..])
  }

  function DocumentParts(doc: Document): seq<Part> {
    OperationsParts(doc.operations) + FragmentsParts(doc.fragments)
  }

  // ----- the text, piece by piece -----

  /** What is still to be written of a list when `i` items are. */
  function Remaining(items: seq<seq<Part>>, i: nat): string
    requires i <= |items|
  {
    if i == 0 then Text(Commas(items)) else Text(Following(items[i..]))
  }

  lemma RemainingStep(items: seq<seq<Part>>, i: nat)
    requires i < |items|
    ensures Remaining(items, i) == (if i != 0 then ", " else "") + Text(items[i]) + Remaining(items, i + 1)
  {
    hide Text, Following;
    if i == 0 {
      TextJoined(items[0], Following(items[1..]));
    } else {
      FollowingText(items[i..]);
      assert items[i..][1..] == items[i + 1..];
    }
  }

  lemma FollowingText(items: seq<seq<Part>>)
    requires items != []
    ensures Text(Following(items)) == ", " + Text(items[0]) + Text(Following(items[1..]))
  {
    hide Text;
    ThreeTexts([Gap(", ")], items[0], Following(items[1..]));
    NoText();
    GapText(", ", []);
    assert [Gap(", ")] + [] == [Gap(", ")];
  }

  lemma AllRemaining(items: seq<seq<Part>>)
    ensures Remaining(items, 0) == Text(Commas(items)) && Remaining(items, |items|) == ""
  {
  }

  lemma PunctText(c: char)
    ensures Text([Sign(c)]) == [c]
  {
  }

  lemma WordText(name: string)
    ensures Text([Word(name)]) == name
  {
  }

  lemma GapText(gap: string, parts: seq<Part>)
    ensures Text([Gap(gap)] + parts) == gap + Text(parts)
  {
    TextJoined([Gap(gap)], parts);
  }

  lemma MarkedText(c: char, name: string, parts: seq<Part>)
    ensures Text([Sign(c), Word(name)] + parts) == [c] + name + Text(parts)
    ensures Text([Sign(c), Word(name)]) == [c] + name
  {
    TwoText(Sign(c), Word(name), parts);
    TwoText(Sign(c), Word(name), []);
    assert [Sign(c), Word(name)] + [] == [Sign(c), Word(name)];
  }

  lemma NamedText(name: string, c: char, parts: seq<Part>)
    ensures Text([Word(name), Sign(c)] + parts) == name + [c] + Text(parts)
  {
    TwoText(Word(name), Sign(c), parts);
  }

  lemma BracketsText(open: char, parts: seq<Part>, close: char)
    ensures Text([Sign(open)] + parts + [Sign(close)]) == [open] + Text(parts) + [close]
  {
    TextJoined([Sign(open)] + parts, [Sign(close)]);
    TextJoined([Sign(open)], parts);
  }

  lemma BasicText(kind: LiteralKind, text: string)
    ensures Text(BasicParts(kind, text)) == text
  {
    if text != "" && text[0] == '-' {
      TwoText(Sign('-'), Tok(Lit(kind, text[1..])), []);
      assert [Sign('-'), Tok(Lit(kind, text[1..]))] + [] == BasicParts(kind, text);
      assert "-" + text[1..] == text;
    }
  }

  lemma TwoText(p: Part, q: Part, parts: seq<Part>)
    ensures Text([p, q] + parts) == PartText(p) + PartText(q) + Text(parts)
  {
    TextJoined([p, q], parts);
    assert [p, q][1..] == [q];
    assert Text([q]) == PartText(q);
  }

  function TypeText(t: Type): string {
    match t
    case Named(name) => name
    case ListOf(of) => "[" + TypeText(of) + "]"
    case NonNullOf(of) => TypeText(of) + "!"
  }

  lemma {:induction false} TypeIsText(t: Type)
    ensures TypeText(t) == Text(TypeParts(t))
  {
    match t
    case Named(_) =>
    case ListOf(of) =>
      TypeIsText(of);
      BracketsText('[', TypeParts(of), ']');
    case NonNullOf(of) =>
      TypeIsText(of);
      PunctText('!');
      TextJoined(TypeParts(of), [Sign('!')]);
  }

  lemma VariableNameText(name: string)
    ensures Text(VariableNameParts(name)) == name
  {
    if name != "" && name[0] == '$' {
      MarkedText('$', name[1..], []);
      assert "$" + name[1..] == name;
    }
  }

  lemma {:induction false} EntryAt(entries: seq<Literal>)
    ensures |EntryParts(entries)| == |entries|
    ensures forall i | 0 <= i < |entries| :: EntryParts(entries)[i] == LiteralParts(entries[i])
  {
    hide LiteralParts;
    if entries != [] {
      EntryAt(entries[1..]);
    }
  }

  lemma {:induction false} FieldAt(fields: seq<ObjectField>)
    ensures |ObjectFieldParts(fields)| == |fields|
    ensures forall i | 0 <= i < |fields| ::
            ObjectFieldParts(fields)[i] == [Word(fields[i].name), Sign(':'), Gap(" ")] + LiteralParts(fields[i].value)
  {
    hide LiteralParts;
    if fields != [] {
      FieldAt(fields[1..]);
    }
  }

  lemma {:induction false} ArgAt(args: seq<Argument>)
    ensures |ArgumentParts(args)| == |args|
    ensures forall i | 0 <= i < |args| ::
            ArgumentParts(args)[i] == [Word(args[i].name), Sign(':')] + LiteralParts(args[i].value)
  {
    hide LiteralParts;
    if args != [] {
      ArgAt(args[1..]);
    }
  }

  lemma {:induction false} DirectiveAt(ds: seq<Directive>)
    ensures |DirectiveParts(ds)| == |ds|
    ensures forall i | 0 <= i < |ds| ::
            DirectiveParts(ds)[i] == [Sign('@'), Word(ds[i].name)] + ArgumentsParts(ds[i].args)
  {
    hide ArgumentsParts;
    if ds != [] {
      DirectiveAt(ds[1..]);
    }
  }

  lemma {:induction false} VarAt(vars: seq<InputValue>)
    ensures |VarParts(vars)| == |vars|
    ensures forall i | 0 <= i < |vars| :: VarParts(vars)[i] == VariableParts(vars[i])
  {
    hide VariableParts;
    if vars != [] {
      VarAt(vars[1..]);
    }
  }

  lemma NoText()
    ensures Text([]) == ""
  {
  }

  lemma VariableText(v: InputValue)
    ensures Text(VariableParts(v)) ==
            Text(VariableNameParts(v.name)) + ":" + Text(TypeParts(v.typ)) +
            if v.default.Some? then "=" + Text(LiteralParts(v.default.value)) else ""
  {
    hide Text, VariableNameParts, TypeParts, LiteralParts;
    var a, b := VariableNameParts(v.name), TypeParts(v.typ);
    NoText();
    PunctText(':');
    PunctText('=');
    TextJoined(a, [Sign(':')]);
    TextJoined(a + [Sign(':')], b);
    TextJoined(a + [Sign(':')] + b, DefaultParts(v.default));
    if v.default.Some? {
      TextJoined([Sign('=')], LiteralParts(v.default.value));
    }
  }

  lemma ThreeTexts(a: seq<Part>, b: seq<Part>, c: seq<Part>)
    ensures Text(a + b + c) == Text(a) + Text(b) + Text(c)
  {
    TextJoined(a, b);
    TextJoined(a + b, c);
  }

  lemma SelectionText(s: Selection)
    ensures Text(SelectionParts(s)) ==
            match s
            case Field(f) =>
              f.alias + (if f.name != f.alias then ":" + f.name else "") +
              Text(ArgumentsParts(f.args)) + Text(DirectivesParts(f.directives)) + Text(SetParts(f.selections))
            case Spread(name, directives) => "..." + name + Text(DirectivesParts(directives))
            case Inline(on, directives, sels) =>
              "... on " + on + Text(DirectivesParts(directives)) + Text(SetParts(sels))
  {
    hide Text, ArgumentsParts, DirectivesParts, SetParts, OptionalName;
    match s
    case Field(f) =>
      var named := [Word(f.alias)] + (if f.name != f.alias then [Sign(':'), Word(f.name)] else []);
      NoText();
      WordText(f.alias);
      MarkedText(':', f.name, []);
      TextJoined([Word(f.alias)], if f.name != f.alias then [Sign(':'), Word(f.name)] else []);
      ThreeTexts(named, ArgumentsParts(f.args), DirectivesParts(f.directives));
      TextJoined(named + ArgumentsParts(f.args) + DirectivesParts(f.directives), SetParts(f.selections));
    case Spread(name, directives) =>
      DotsText([Word(name)]);
      WordText(name);
      assert [Sign('.'), Sign('.'), Sign('.'), Word(name)] == [Sign('.'), Sign('.'), Sign('.')] + [Word(name)];
      TextJoined([Sign('.'), Sign('.'), Sign('.'), Word(name)], DirectivesParts(directives));
    case Inline(on, directives, sels) =>
      var head := [Gap(" "), Word("on"), Gap(" ")] + OptionalName(on);
      DotsText(head);
      OnText(on);
      assert [Sign('.'), Sign('.'), Sign('.'), Gap(" "), Word("on"), Gap(" ")] + OptionalName(on) ==
             [Sign('.'), Sign('.'), Sign('.')] + head;
      ThreeTexts([Sign('.'), Sign('.'), Sign('.')] + head, DirectivesParts(directives), SetParts(sels));
  }

  lemma DotsText(parts: seq<Part>)
    ensures Text([Sign('.'), Sign('.'), Sign('.')] + parts) == "..." + Text(parts)
  {
    TwoText(Sign('.'), Sign('.'), [Sign('.')] + parts);
    TextJoined([Sign('.')], parts);
    PunctText('.');
    assert [Sign('.'), Sign('.')] + ([Sign('.')] + parts) == [Sign('.'), Sign('.'), Sign('.')] + parts;
  }

  lemma OnText(on: string)
    ensures Text([Gap(" "), Word("on"), Gap(" ")] + OptionalName(on)) == " on " + on
  {
    TwoText(Gap(" "), Word("on"), [Gap(" ")] + OptionalName(on));
    GapText(" ", OptionalName(on));
    WordText(on);
    assert [Gap(" "), Word("on")] + ([Gap(" ")] + OptionalName(on)) ==
           [Gap(" "), Word("on"), Gap(" ")] + OptionalName(on);
  }

  lemma SpacedNameText(name: string)
    ensures Text(SpacedName(name)) == if name == "" then "" else " " + name
  {
    if name != "" {
      TwoText(Gap(" "), Word(name), []);
      assert [Gap(" "), Word(name)] + [] == SpacedName(name);
    }
  }

  lemma OperationText(op: Operation)
    ensures Text(OperationParts(op)) ==
            OperationWord(op.op) + (if op.name == "" then "" else " " + op.name) +
            Text(DirectivesParts(op.directives)) +
            Text(VariablesParts(op.vars)) + Text(SetParts(op.selections))
  {
    hide Text, DirectivesParts, VariablesParts, SetParts, SpacedName;
    var head := [Word(OperationWord(op.op))] + SpacedName(op.name);
    WordText(OperationWord(op.op));
    SpacedNameText(op.name);
    TextJoined([Word(OperationWord(op.op))], SpacedName(op.name));
    ThreeTexts(head, DirectivesParts(op.directives), VariablesParts(op.vars));
    TextJoined(head + DirectivesParts(op.directives) + VariablesParts(op.vars), SetParts(op.selections));
  }

  lemma FragmentText(f: Fragment)
    ensures Text(FragmentParts(f)) ==
            "fragment" + (if f.name == "" then "" else " " + f.name) + " on " + f.on +
            Text(DirectivesParts(f.directives)) + Text(SetParts(f.selections))
  {
    hide Text, DirectivesParts, SetParts, SpacedName, OptionalName;
    var named := [Word("fragment")] + SpacedName(f.name);
    var head := [Gap(" "), Word("on"), Gap(" ")] + OptionalName(f.on);
    WordText("fragment");
    SpacedNameText(f.name);
    OnText(f.on);
    ThreeTexts([Word("fragment")], SpacedName(f.name), head);
    assert [Word("fragment")] + SpacedName(f.name) + [Gap(" "), Word("on"), Gap(" ")] + OptionalName(f.on) ==
           named + head;
    ThreeTexts(named + head, DirectivesParts(f.directives), SetParts(f.selections));
  }

  lemma DefinitionText(parts: seq<Part>, rest: seq<Part>)
    ensures Text(parts + [Gap("\n")] + rest) == Text(parts) + "\n" + Text(rest)
  {
    hide Text;
    ThreeTexts(parts, [Gap("\n")], rest);
    GapText("\n", []);
    NoText();
    assert [Gap("\n")] + [] == [Gap("\n")];
  }

  // ----- indented parts -----

  lemma HungPart(p: Part)
    ensures Text(HangPart(p)) == Hang(PartText(p), INDENT)
    ensures TokensIn(HangPart(p)) == if p.Tok? then [HangToken(p.token)] else []
  {
    hide Hang;
    match p
    case Gap(text) => GapText(Hang(text, INDENT), []);
    case Tok(t) => HungTok(t);
  }

  lemma HungTok(t: Token)
    ensures Text(HangPart(Tok(t))) == Hang(TokenText(t), INDENT)
    ensures TokensIn(HangPart(Tok(t))) == [HangToken(t)]
  {
    hide Text, TokensIn, Hang, HangToken, EndsLine, PartText, TokenText;
    var h := Tok(HangToken(t));
    HungTokenText(t);
    if EndsLine(TokenText(t)) {
      assert HangPart(Tok(t)) == [h] + [Gap(INDENT)] == [h, Gap(INDENT)] == [h, Gap(INDENT)] + [];
      TwoText(h, Gap(INDENT), []);
      TokenAndGap(HangToken(t), INDENT);
      NoText();
      PartTexts(HangToken(t), INDENT);
      assert TokenText(HangToken(t)) + INDENT + "" == TokenText(HangToken(t)) + INDENT;
    } else {
      OneToken(HangToken(t));
      assert HangPart(Tok(t)) == [h] + [] == [h];
    }
  }

  lemma PartTexts(t: Token, gap: string)
    ensures PartText(Tok(t)) == TokenText(t) && PartText(Gap(gap)) == gap
  {
  }

  /** A token whose text ends a line leaves its last indentation to a gap. */
  lemma HungTokenText(t: Token)
    ensures Hang(TokenText(t), INDENT) ==
            TokenText(HangToken(t)) + if EndsLine(TokenText(t)) then INDENT else ""
  {
    hide Hang;
    var text := TokenText(t);
    if t.Punct? {
      HangOne(t.ch);
    }
    if EndsLine(text) {
      HangJoined(text[..|text| - 1], "\n", INDENT);
      HangOne('\n');
      assert text[..|text| - 1] + "\n" == text;
    }
  }

  lemma HangOne(c: char)
    ensures Hang([c], INDENT) == if c == '\n' then "\n" + INDENT else [c]
  {
    assert [c][1..] == "";
  }

  lemma OneToken(t: Token)
    ensures TokensIn([Tok(t)]) == [t] && Text([Tok(t)]) == TokenText(t)
  {
  }

  lemma TokenAndGap(t: Token, gap: string)
    ensures TokensIn([Tok(t), Gap(gap)]) == [t]
  {
    assert [Tok(t), Gap(gap)][1..] == [Gap(gap)];
    assert TokensIn([Gap(gap)]) == [];
  }

  function HangTokens(ts: seq<Token>): seq<Token> {
    if ts == [] then [] else [HangToken(ts[0])] + HangTokens(ts[1..])
  }

  lemma {:induction false} HangTokensJoined(a: seq<Token>, b: seq<Token>)
    ensures HangTokens(a + b) == HangTokens(a) + HangTokens(b)
  {
    if a == [] {
      assert a + b == b;
    } else {
      assert (a + b)[1..] == a[1..] + b;
      HangTokensJoined(a[1..], b);
    }
  }

  lemma {:induction false} HungParts(parts: seq<Part>)
    ensures Text(HangParts(parts)) == Hang(Text(parts), INDENT)
    ensures TokensIn(HangParts(parts)) == HangTokens(TokensIn(parts))
  {
    hide HangPart, HangToken, Hang;
    if parts == [] {
      HangNothing("", INDENT);
    } else {
      HungPart(parts[0]);
      HungParts(parts[1..]);
      TextJoined(HangPart(parts[0]), HangParts(parts[1..]));
      if parts[0].Tok? {
        assert TokensIn(parts)[1..] == TokensIn(parts[1..]);
      } else {
        assert TokensIn(parts) == TokensIn(parts[1..]);
      }
      HangJoined(PartText(parts[0]), Text(parts[1..]), INDENT);
    }
  }

  lemma HangStarts(s: string)
    ensures Hang(s, INDENT) != "" <==> s != ""
    ensures s != "" ==> Hang(s, INDENT)[0] == s[0]
  {
  }

  lemma {:induction false} HangGap(text: string)
    requires IsGap(text)
    ensures IsGap(Hang(text, INDENT))
  {
    if text != "" {
      assert text[0] in text;
      assert forall c :: c in text[1..] ==> c in text;
      HangGap(text[1..]);
    }
  }

  /** Indentation does not join tokens. */
  lemma {:induction false} HungApart(parts: seq<Part>, x: string, y: string)
    requires Separated(parts, x) && (Ends(x) ==> Ends(y))
    ensures Separated(HangParts(parts), y)
  {
    hide Hang, HangToken, HangPart, Follow;
    if parts != [] {
      HungApart(parts[1..], x, y);
      HungFollow(parts[0], parts[1..], x, y);
    }
  }

  lemma HungFollow(p: Part, rest: seq<Part>, x: string, y: string)
    requires Follow(p, rest, x) && (Ends(x) ==> Ends(y)) && Separated(HangParts(rest), y)
    ensures Separated(HangPart(p) + HangParts(rest), y)
  {
    hide Hang, HangParts, Follow, Separated, Text;
    var more := HangParts(rest);
    match p
    case Gap(text) =>
      GapIsGap(text, rest, x);
      HangGap(text);
      GapAhead(Hang(text, INDENT), more, y);
    case Tok(t) =>
      if EndsLine(TokenText(t)) {
        GapAhead(INDENT, more, y);
        NoPoint(HangToken(t), t, [Gap(INDENT)] + more, y);
        PartAhead(Tok(HangToken(t)), [Gap(INDENT)] + more, y);
        assert HangPart(p) + more == [Tok(HangToken(t))] + ([Gap(INDENT)] + more);
      } else {
        HungRest(t, rest, x, y);
        PartAhead(Tok(HangToken(t)), more, y);
        assert HangPart(p) + more == [Tok(HangToken(t))] + more;
      }
  }

  lemma PartAhead(p: Part, more: seq<Part>, y: string)
    requires Follow(p, more, y) && Separated(more, y)
    ensures Separated([p] + more, y)
  {
    assert ([p] + more)[1..] == more;
  }

  lemma GapAhead(gap: string, more: seq<Part>, y: string)
    requires IsGap(gap) && Separated(more, y)
    ensures Separated([Gap(gap)] + more, y) && (gap != "" ==> Ends(Text([Gap(gap)] + more) + y))
  {
    PartAhead(Gap(gap), more, y);
    if gap != "" {
      assert ([Gap(gap)] + more)[1..] == more && gap[0] in gap;
    }
  }

  lemma NoPoint(hung: Token, t: Token, more: seq<Part>, y: string)
    requires hung == HangToken(t) && EndsLine(TokenText(t)) && Ends(Text(more) + y)
    ensures Follow(Tok(hung), more, y)
  {
  }

  lemma HungRest(t: Token, rest: seq<Part>, x: string, y: string)
    requires Follow(Tok(t), rest, x) && (Ends(x) ==> Ends(y))
    ensures Follow(Tok(HangToken(t)), HangParts(rest), y)
  {
    hide Hang;
    HungParts(rest);
    HangStarts(Text(rest));
    if t == Punct('.') {
      match rest[0]
      case Gap(text) => HangStarts(text);
      case Tok(_) =>
    }
  }

  // ----- the text of lines -----

  lemma LineText(parts: seq<Part>, rest: seq<Part>)
    ensures Text(Line(parts) + rest) == Indented(Text(parts) + "\n", INDENT) + Text(rest)
  {
    hide Indented;
    IndentedLine(Text(parts), INDENT);
    HungParts(parts);
    TextJoined(Line(parts), rest);
    TextJoined([Gap(INDENT)] + HangParts(parts), [Gap("\n")]);
    GapText(INDENT, HangParts(parts));
    assert Text([Gap("\n")]) == "\n";
  }

  /** The selections before they are indented. */
  function SelectionsText(sels: seq<Selection>): string {
    if sels == [] then "" else Text(SelectionParts(sels[0])) + "\n" + SelectionsText(sels[1..])
  }

  lemma {:induction false} LinesAreIndented(sels: seq<Selection>)
    requires sels != []
    ensures EndsLine(SelectionsText(sels))
    ensures Text(SelectionLines(sels)) == Indented(SelectionsText(sels), INDENT)
  {
    hide Indented, Text, SelectionParts;
    var line := Text(SelectionParts(sels[0]));
    LineText(SelectionParts(sels[0]), SelectionLines(sels[1..]));
    if |sels| == 1 {
      NoLines();
      assert line + "\n" + "" == line + "\n";
    } else {
      LinesAreIndented(sels[1..]);
      IndentedLines(line, SelectionsText(sels[1..]), INDENT);
    }
  }

  lemma NoLines()
    ensures SelectionsText([]) == "" && Text(SelectionLines([])) == "" && VarsText([]) == "" && Text(VarLines([])) == ""
  {
  }

  lemma SetText(sels: seq<Selection>)
    ensures Text(SetParts(sels)) == if sels == [] then "" else " {\n" + Indented(SelectionsText(sels), INDENT) + "}"
  {
    hide Indented, SelectionLines, SelectionsText;
    if sels != [] {
      var lines := SelectionLines(sels);
      LinesAreIndented(sels);
      PunctText('}');
      TextJoined([Gap(" "), Sign('{'), Gap("\n")] + lines, [Sign('}')]);
      GapText("\n", lines);
      TwoText(Gap(" "), Sign('{'), [Gap("\n")] + lines);
      assert [Gap(" "), Sign('{')] + ([Gap("\n")] + lines) == [Gap(" "), Sign('{'), Gap("\n")] + lines;
    }
  }

  /** The variables before they are indented. */
  function VarsText(vars: seq<InputValue>): string {
    if vars == [] then ""
    else Text(VariableParts(vars[0])) + (if |vars| == 1 then "" else ",") + "\n" + VarsText(vars[1..])
  }

  lemma {:induction false} VarLinesAreIndented(vars: seq<InputValue>)
    requires vars != []
    ensures EndsLine(VarsText(vars))
    ensures Text(VarLines(vars)) == Indented(VarsText(vars), INDENT)
  {
    hide Indented, Text, VariableParts;
    var comma := if |vars| == 1 then [] else [Gap(",")];
    var line := Text(VariableParts(vars[0]) + comma);
    TextJoined(VariableParts(vars[0]), comma);
    CommaText();
    LineText(VariableParts(vars[0]) + comma, VarLines(vars[1..]));
    if |vars| == 1 {
      NoLines();
      assert line + "\n" + "" == line + "\n";
    } else {
      VarLinesAreIndented(vars[1..]);
      IndentedLines(line, VarsText(vars[1..]), INDENT);
    }
  }

  lemma CommaText()
    ensures Text([Gap(",")]) == "," && Text([]) == ""
  {
  }

  lemma VariablesText(vars: seq<InputValue>)
    ensures Text(VariablesParts(vars)) ==
            if vars == [] then ""
            else "(" + (if SomeLine(VarParts(vars)) then "\n" + Indented(VarsText(vars), INDENT)
                        else Text(Commas(VarParts(vars)))) + ")"
  {
    hide Indented, VarLines, VarsText, Commas, VarParts;
    if vars == [] {
    } else if SomeLine(VarParts(vars)) {
      VarLinesAreIndented(vars);
      GapText("\n", VarLines(vars));
      BracketsText('(', [Gap("\n")] + VarLines(vars), ')');
      assert [Sign('('), Gap("\n")] + VarLines(vars) == [Sign('(')] + ([Gap("\n")] + VarLines(vars));
    } else {
      BracketsText('(', Commas(VarParts(vars)), ')');
    }
  }
}
