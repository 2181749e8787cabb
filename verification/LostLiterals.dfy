/**
 Two documents that their own text loses: one with an empty string in a list, one
 with a block string of two lines.
 */
module LostLiterals {
  import opened Wrappers
  import opened Query
  import opened Utf8
  import opened ScannerSpec
  import opened ScannerPositions
  import opened ScannerRuns
  import opened ScannerLocality
  import opened TokenStream
  import opened Reading
  import opened Indentation
  import opened TextScan
  import opened PrintedText
  import opened IndentedDocument
  import opened HungLexemes
  import opened TextRoundTrip
  import opened Printing
  import FlatDocument
  import RoundTrip
  import Syntax

  /** `query {a(b:...)}` */
  function Asking(lit: Literal): Document {
    Document([Operation(QueryOp, "", [], [], [Field(FieldSelection("a", "a", [Argument("b", lit)], [], [], None))])],
             [])
  }

  function Head(): seq<Syntax.Token> {
    [Name("query"), Syntax.Punct('{'), Name("a"), Syntax.Punct('('), Name("b"), Syntax.Punct(':')]
  }

  function Tail(): seq<Syntax.Token> {
    [Syntax.Punct(')'), Syntax.Punct('}')]
  }

  lemma AskingPrinted(lit: Literal)
    ensures Print(Asking(lit)) == Head() + PrintLiteral(lit) + Tail()
  {
    hide PrintLiteral, PrintSelectionSet;
    var op := Asking(lit).operations[0];
    SetPrinted(lit);
    assert [op][1..] == [] && PrintOperation(op) + [] == PrintOperation(op);
    assert PrintOperations([op]) == PrintOperation(op);
    assert PrintOperation(op) == [Name("query")] + PrintSelectionSet(op.selections);
    assert Print(Asking(lit)) == PrintOperation(op) + [];
  }

  lemma SetPrinted(lit: Literal)
    ensures PrintSelectionSet(Asking(lit).operations[0].selections) == Head()[1..] + PrintLiteral(lit) + Tail()
  {
    hide PrintLiteral, PrintArguments;
    var arg := Argument("b", lit);
    var s := Asking(lit).operations[0].selections[0];
    ArgumentPrinted(arg);
    assert PrintSelection(s) == [Name("a")] + PrintArguments([arg]);
    assert PrintSelections([s]) == PrintSelection(s) + [];
  }

  lemma ArgumentPrinted(arg: Argument)
    ensures PrintArguments([arg]) == [Syntax.Punct('('), Name(arg.name), Syntax.Punct(':')] + PrintLiteral(arg.value) +
            [Syntax.Punct(')')]
  {
    hide PrintLiteral, PrintArgs;
    OneArgument(arg);
    var p := PrintLiteral(arg.value);
    assert PrintArguments([arg]) ==
           [Syntax.Punct('(')] + ([Name(arg.name), Syntax.Punct(':')] + p) + [Syntax.Punct(')')];
  }

  lemma OneArgument(arg: Argument)
    ensures PrintArgs([arg]) == [Name(arg.name), Syntax.Punct(':')] + PrintLiteral(arg.value)
  {
    hide PrintLiteral;
    assert [arg][1..] == [];
    assert PrintArgument(arg) + [] == PrintArgument(arg);
  }

  lemma AskingOk(lit: Literal)
    requires RoundTrip.LiteralOk(lit, false)
    ensures RoundTrip.DocumentOk(Asking(lit)) && RoundTrip.Printable(Asking(lit))
    ensures Syntax.Parse(Print(Asking(lit))) == Some(Asking(lit))
  {
    hide Print, Syntax.Parse, RoundTrip.LiteralOk;
    var s := Asking(lit).operations[0].selections[0];
    assert RoundTrip.SelectionOk(s) && RoundTrip.SelectionPrintable(s);
    assert RoundTrip.OperationOk(Asking(lit).operations[0]) && RoundTrip.OperationPrintable(Asking(lit).operations[0]);
    assert RoundTrip.DocumentOk(Asking(lit));
    RoundTrip.PrintedComesBack(Asking(lit));
  }

  // ----- a block string of two lines -----

  function TwoLines(indent: string): Literal {
    BasicLit(BlockStringLit, "\"\"\"" + "\n" + indent + "\"\"\"")
  }

  lemma AskingLaid(kind: LiteralKind, text: string)
    requires text != "" && text[0] != '-'
    ensures Laid(Asking(BasicLit(kind, text))) == Asking(BasicLit(kind, HangText(text)))
  {
    hide HangText;
    var arg := Argument("b", BasicLit(kind, text));
    var s := Field(FieldSelection("a", "a", [arg], [], [], None));
    assert HangArgs([arg]) == [Argument("b", BasicLit(kind, HangText(text)))];
    assert LaidSelection(s) == s;
    assert HangSelection(s) == Field(FieldSelection("a", "a", [Argument("b", BasicLit(kind, HangText(text)))], [], [],
                                                    None));
    assert [s][1..] == [];
    assert LaidSelections([s]) == [HangSelection(s)];
    assert LaidVars([]) == [];
    var op := Operation(QueryOp, "", [], [], [s]);
    assert [op][1..] == [];
    assert LaidOperations([op]) == [LaidOperation(op)];
  }

  lemma TwoLinesHung()
    ensures HangText("\"\"\"" + "\n" + "" + "\"\"\"") == "\"\"\"" + "\n" + INDENT + "\"\"\""
  {
    var quotes := "\"\"\"";
    var text := quotes + "\n" + "" + quotes;
    assert text == quotes + "\n" + quotes;
    HangLine(quotes, quotes, INDENT);
    HangNothing(quotes, INDENT);
    assert !EndsLine(text);
  }

  const QUOTE := '"' as int

  /** Three quotes, a line feed and three quotes. */
  lemma SixQuotesScanned(two: seq<byte>)
    requires two == Quoted([10, QUOTE, QUOTE, QUOTE, COMMA])
    ensures (var m := First(two);
             var m2 := Next(two, m);
             var body := BlockBody(two, Next(two, m2), 0);
             && InSync(two, m) && m.cur.at == 0 && m.ch == m2.ch == Next(two, m2).ch == QUOTE
             && InSync(two, body) && body.ch == QUOTE && body.cur.at == 6)
  {
    hide InSync, Next, First, BlockBody, Quoted;
    ThreeQuotes(two, [10, QUOTE, QUOTE, QUOTE, COMMA]);
    LastFour(two, Next(two, Next(two, First(two))));
  }

  lemma LastFour(two: seq<byte>, m: Look)
    requires InSync(two, m) && Next(two, m).cur.at == 3 <= |two| && two[3..] == [10, QUOTE, QUOTE, QUOTE, COMMA]
    ensures InSync(two, BlockBody(two, m, 0)) && BlockBody(two, m, 0).ch == QUOTE && BlockBody(two, m, 0).cur.at == 6
  {
    hide InSync, Next, BlockBody, Walked;
    var m2 := Next(two, m);
    WalkedNext(two, m);
    WalkedForward(two, m, m2);
    assert two[3..] == [10] + [QUOTE, QUOTE, QUOTE, COMMA];
    BytesFollow(two, m2, 10, [QUOTE, QUOTE, QUOTE, COMMA]);
    BlockGoesOn(two, m, 0);
    LastThree(two, m2);
  }

  lemma LastThree(two: seq<byte>, m: Look)
    requires Next(two, m).cur.at == 4 <= |two| && InSync(two, Next(two, m)) && two[4..] == [QUOTE, QUOTE, QUOTE, COMMA]
    ensures InSync(two, BlockBody(two, m, 0)) && BlockBody(two, m, 0).ch == QUOTE && BlockBody(two, m, 0).cur.at == 6
  {
    hide InSync, Next, BlockBody;
    var m2 := Next(two, m);
    assert two[4..] == [QUOTE] + [QUOTE, QUOTE, COMMA];
    BytesFollow(two, m2, QUOTE, [QUOTE, QUOTE, COMMA]);
    BlockGoesOn(two, m, 0);
    var m3 := Next(two, m2);
    assert [QUOTE, QUOTE, COMMA] == [QUOTE] + [QUOTE, COMMA];
    BytesFollow(two, m3, QUOTE, [QUOTE, COMMA]);
    BlockGoesOn(two, m2, 1);
    assert [QUOTE, COMMA] == [QUOTE] + [COMMA];
    BytesFollow(two, Next(two, m3), QUOTE, [COMMA]);
    BlockStops(two, m3);
  }

  lemma SixQuotes(ident: Identifies)
    requires Ordinary(ident)
    ensures Lexical(ident, Syntax.Lit(BlockStringLit, "\"\"\"" + "\n" + "" + "\"\"\""))
  {
    hide InSync, Next, First, Ordinary, Lexeme, BlockBody;
    var text: seq<byte> := [QUOTE, QUOTE, QUOTE, 10, QUOTE, QUOTE, QUOTE];
    assert BeforeComma(text) == Quoted([10, QUOTE, QUOTE, QUOTE, COMMA]);
    SixQuotesScanned(BeforeComma(text));
    BlockIsFound(ident, text);
    var s := "\"\"\"" + "\n" + "" + "\"\"\"";
    assert Bytes(s) == text;
    assert Chars(text) == s;
  }

  lemma LetterIsLexical(ident: Identifies, name: string)
    requires Ordinary(ident) && (name == "a" || name == "b" || name == "ab" || name == "query")
    ensures Lexical(ident, Name(name))
  {
    hide Lexical;
    WordIsLexeme(ident, name);
  }

  lemma AskingIsLexical(ident: Identifies, lit: Literal)
    requires Ordinary(ident) && AllLexical(ident, PrintLiteral(lit))
    ensures AllLexical(ident, Print(Asking(lit)))
  {
    hide Lexeme, Ordinary, PrintLiteral, Print;
    AskingPrinted(lit);
    LetterIsLexical(ident, "a");
    LetterIsLexical(ident, "b");
    LetterIsLexical(ident, "query");
  }

  /** The second line is indented, and so the document comes back with another block string. */
  lemma BlockStringGrows(ident: Identifies)
    requires Ordinary(ident)
    ensures TwoLines("") != TwoLines(INDENT)
    ensures ReadDocument(ident, Written(Asking(TwoLines("")))) == Some(Asking(TwoLines(INDENT)))
  {
    hide Lexical, Ordinary, Print, PrintLiteral, Syntax.Parse, Laid, HangText, Lexed, Written;
    var lit := TwoLines("");
    SecondIsLonger();
    SixQuotes(ident);
    OneLexeme(ident, lit);
    AskingIsLexical(ident, lit);
    WrittenIsRead(ident, Asking(lit));
    AskingLaid(BlockStringLit, lit.text);
    TwoLinesHung();
    AskingOk(TwoLines(INDENT));
  }

  lemma SecondIsLonger()
    ensures TwoLines("") != TwoLines(INDENT) && RoundTrip.LiteralOk(TwoLines(INDENT), false)
  {
    assert |TwoLines("").text| != |TwoLines(INDENT).text|;
  }

  lemma OneLexeme(ident: Identifies, lit: Literal)
    requires lit == TwoLines("") && Lexical(ident, Syntax.Lit(BlockStringLit, lit.text))
    ensures AllLexical(ident, PrintLiteral(lit)) && lit.text != "" && lit.text[0] != '-'
  {
    hide Lexical;
  }

  // ----- an empty string in a list -----

  /** A quote, in step with the source or left over: another quote follows, and no third. */
  lemma EmptyAt(ident: Identifies, src: seq<byte>, l: Look)
    requires Ordinary(ident) && src != [] && Startable(src, l) && l.ch == QUOTE
    requires Next(src, l).ch == QUOTE && Next(src, Next(src, l)).ch != QUOTE
    ensures (var t := Scan(ident, src, l);
             var end := Next(src, Next(src, l));
             t.kind == STRING && t.from == l.cur.at && t.to == end.cur.at && t.after == Look(QUOTE, end.cur)
             && Startable(src, t.after))
  {
    hide InSync, Next, Placed, Startable;
    ScanReached(ident, src, l);
    NoName(ident, QUOTE);
    assert Skip(ident, src, l) == l;
  }

  /** A quote, in step with the source or left over: something else follows. */
  lemma StringAt(ident: Identifies, src: seq<byte>, l: Look)
    requires Ordinary(ident) && src != [] && Startable(src, l) && l.ch == QUOTE && Next(src, l).ch != QUOTE
    ensures (var t := Scan(ident, src, l);
             t.kind == STRING && t.from == l.cur.at && t.after == Next(src, StringBody(src, Next(src, Next(src, l))))
             && t.to == t.after.cur.at && Startable(src, t.after))
  {
    hide InSync, Next, Placed, Startable, StringBody;
    ScanReached(ident, src, l);
    NoName(ident, QUOTE);
    assert Skip(ident, src, l) == l;
  }

  /** The text of a token, and what follows it. */
  lemma TextHere(src: seq<byte>, t: Token, text: string, rest: string)
    requires t.kind == STRING && t.from <= |src| && src[t.from..] == Bytes(text + rest) && t.to == t.from + |text| &&
             InBytes(text)
    ensures TokenOf(src, t) == Syntax.Lit(StringLit, text) && t.to <= |src| && src[t.to..] == Bytes(rest)
  {
    BytesJoined(text, rest);
    assert |src[t.from..]| == |text| + |rest|;
    assert src[t.from..][..|text|] == src[t.from..t.to] == Bytes(text);
    assert src[t.from..][|text|..] == src[t.to..];
    InBytesIf(text);
  }

  lemma CharFollows(src: seq<byte>, l: Look, c: char, rest: string)
    requires InSync(src, l) && l.cur.at <= |src| && src[l.cur.at..] == Bytes([c] + rest) && c as int < RUNE_SELF
    ensures l.ch == c as int && l.cur.width == 1 && InSync(src, Next(src, l)) &&
            Next(src, l).cur.at == l.cur.at + 1 <= |src|
    ensures src[Next(src, l).cur.at..] == Bytes(rest)
  {
    BytesJoined([c], rest);
    BytesFollow(src, l, c as int, Bytes(rest));
  }

  /** An empty string in its place; a quote is left over. */
  lemma EmptyRead(ident: Identifies, src: seq<byte>, l: Look, rest: string)
    requires Ordinary(ident) && src != [] && Startable(src, l) && InSync(src, l)
    requires l.cur.at <= |src| && src[l.cur.at..] == Bytes("\"\"" + rest)
    requires rest != "" && rest[0] != '"' && rest[0] as int < RUNE_SELF
    ensures (var t := Scan(ident, src, l);
             var end := Next(src, Next(src, l));
             && TokenOf(src, t) == Syntax.Lit(StringLit, "\"\"") && t.kind == STRING && t.after == Look(QUOTE, end.cur)
             && Startable(src, t.after) && InSync(src, end) && end.cur.at <= |src| && src[end.cur.at..] == Bytes(rest))
  {
    hide InSync, Next, Startable, Scan, TokenOf, Bytes;
    assert "\"\"" + rest == ['"'] + (['"'] + rest);
    CharFollows(src, l, '"', ['"'] + rest);
    var l2 := Next(src, l);
    CharFollows(src, l2, '"', rest);
    var end := Next(src, l2);
    assert rest == [rest[0]] + rest[1..];
    CharFollows(src, end, rest[0], rest[1..]);
    EmptyAt(ident, src, l);
    TextHere(src, Scan(ident, src, l), "\"\"", rest);
  }

  /** The left-over quote makes two strings of a space and a name in quotes. */
  lemma ThreeStrings(ident: Identifies, src: seq<byte>, l: Look, rest: string) returns (m: Look)
    requires Ordinary(ident) && src != [] && Startable(src, l) && InSync(src, l)
    requires l.cur.at <= |src| && src[l.cur.at..] == Bytes("\"\"" + (" \"" + ("ab\"" + rest)))
    ensures Startable(src, m) && InSync(src, m) && m.cur.at <= |src| && src[m.cur.at..] == Bytes(rest)
    ensures TokensOf(src, Stream(ident, src, l)) ==
            [Syntax.Lit(StringLit, "\"\""), Syntax.Lit(StringLit, " \""), Syntax.Lit(StringLit, "ab\"")] +
            TokensOf(src, Stream(ident, src, m))
  {
    hide InSync, Next, Startable, Scan, TokenOf, Stream, Bytes;
    EmptyRead(ident, src, l, " \"" + ("ab\"" + rest));
    var t1 := Scan(ident, src, l);
    var space := Next(src, Next(src, l));
    StreamStarts(ident, src, l);
    NextOfLeftOver(src, space);
    SpaceAndQuote(ident, src, space, rest);
    var t2 := Scan(ident, src, t1.after);
    var letter := Next(src, Next(src, space));
    StreamStarts(ident, src, t1.after);
    LettersAndQuote(ident, src, letter, rest);
    StreamStarts(ident, src, t2.after);
    m := Scan(ident, src, t2.after).after;
  }

  lemma NextOfLeftOver(src: seq<byte>, l: Look)
    ensures Next(src, Look(QUOTE, l.cur)) == Next(src, l)
  {
  }

  lemma SpaceAndQuote(ident: Identifies, src: seq<byte>, l: Look, rest: string)
    requires Ordinary(ident) && src != [] && Startable(src, Look(QUOTE, l.cur)) && InSync(src, l)
    requires l.cur.at <= |src| && src[l.cur.at..] == Bytes(" \"" + ("ab\"" + rest))
    ensures (var t := Scan(ident, src, Look(QUOTE, l.cur));
             var end := Next(src, Next(src, l));
             && TokenOf(src, t) == Syntax.Lit(StringLit, " \"") && t.kind == STRING && t.after == Look(QUOTE, end.cur)
             && Startable(src, t.after) && InSync(src, end) && end.cur.at <= |src|
             && src[end.cur.at..] == Bytes("ab\"" + rest))
  {
    hide InSync, Next, Startable, Scan, TokenOf, Bytes;
    NextOfLeftOver(src, l);
    assert " \"" + ("ab\"" + rest) == [' '] + (['"'] + ("ab\"" + rest));
    CharFollows(src, l, ' ', ['"'] + ("ab\"" + rest));
    var l2 := Next(src, l);
    CharFollows(src, l2, '"', "ab\"" + rest);
    var end := Next(src, l2);
    assert "ab\"" + rest == ['a'] + ("b\"" + rest);
    CharFollows(src, end, 'a', "b\"" + rest);
    EmptyAt(ident, src, Look(QUOTE, l.cur));
    TextHere(src, Scan(ident, src, Look(QUOTE, l.cur)), " \"", "ab\"" + rest);
  }

  lemma LettersAndQuote(ident: Identifies, src: seq<byte>, l: Look, rest: string)
    requires Ordinary(ident) && src != [] && Startable(src, Look(QUOTE, l.cur)) && InSync(src, l)
    requires l.cur.at <= |src| && src[l.cur.at..] == Bytes("ab\"" + rest)
    ensures (var t := Scan(ident, src, Look(QUOTE, l.cur));
             && TokenOf(src, t) == Syntax.Lit(StringLit, "ab\"") && t.kind == STRING && Startable(src, t.after)
             && InSync(src, t.after) && t.after.cur.at <= |src| && src[t.after.cur.at..] == Bytes(rest))
  {
    hide InSync, Next, Startable, Scan, TokenOf, Bytes;
    NextOfLeftOver(src, l);
    assert "ab\"" + rest == ['a'] + (['b'] + (['"'] + rest));
    CharFollows(src, l, 'a', ['b'] + (['"'] + rest));
    var l2 := Next(src, l);
    CharFollows(src, l2, 'b', ['"'] + rest);
    var l3 := Next(src, l2);
    CharFollows(src, l3, '"', rest);
    assert StringBody(src, l3) == l3;
    StringAt(ident, src, Look(QUOTE, l.cur));
    TextHere(src, Scan(ident, src, Look(QUOTE, l.cur)), "ab\"", rest);
  }

  /** What is scanned from `""`, a space and `"ab"`. */
  function Three(): Literal {
    ListLit([BasicLit(StringLit, "\"\""), BasicLit(StringLit, " \""), BasicLit(StringLit, "ab\"")])
  }

  lemma ThreePrinted()
    ensures PrintLiteral(Three()) ==
            [Syntax.Punct('['), Syntax.Lit(StringLit, "\"\""), Syntax.Lit(StringLit, " \""),
             Syntax.Lit(StringLit, "ab\""),
             Syntax.Punct(']')]
  {
    var one, two, three := BasicLit(StringLit, "\"\""), BasicLit(StringLit, " \""), BasicLit(StringLit, "ab\"");
    assert [one, two, three][1..] == [two, three] && [two, three][1..] == [three] && [three][1..] == [];
    assert PrintEntries([three]) == [Syntax.Lit(StringLit, "ab\"")];
    assert PrintEntries([two, three]) == [Syntax.Lit(StringLit, " \"")] + PrintEntries([three]);
  }

  lemma TextStep(p: Part, parts: seq<Part>)
    ensures Text([p] + parts) == PartText(p) + Text(parts)
    ensures TokensIn([p] + parts) == (if p.Tok? then [p.token] else []) + TokensIn(parts)
    ensures forall after :: Separated([p] + parts, after) <==> Follow(p, parts, after) && Separated(parts, after)
  {
    assert ([p] + parts)[1..] == parts;
  }

  function Opened(): seq<Part> {
    [Sign('(')] + ([Word("b")] + ([Sign(':')] + [Sign('[')]))
  }

  function Closed(): seq<Part> {
    [Sign(']')] + ([Sign(')')] + [Sign('}')])
  }

  lemma OpenedText(after: string)
    ensures Text(Opened()) == "(b:[" && Separated(Opened(), after)
    ensures TokensIn(Opened()) == [Syntax.Punct('('), Name("b"), Syntax.Punct(':'), Syntax.Punct('[')]
  {
    hide Text, TokensIn, Separated;
    TextStep(Sign('['), []);
    assert [Sign('[')] + [] == [Sign('[')];
    NothingText(after);
    TextStep(Sign(':'), [Sign('[')]);
    TextStep(Word("b"), [Sign(':')] + [Sign('[')]);
    TextStep(Sign('('), [Word("b")] + ([Sign(':')] + [Sign('[')]));
  }

  lemma NothingText(after: string)
    ensures Text([]) == "" && TokensIn([]) == [] && Separated([], after)
  {
  }

  lemma ClosedText()
    ensures Text(Closed()) == "])}" && Separated(Closed(), "")
    ensures TokensIn(Closed()) == [Syntax.Punct(']'), Syntax.Punct(')'), Syntax.Punct('}')]
  {
    hide Text, TokensIn, Separated;
    NothingText("");
    TextStep(Sign('}'), []);
    assert [Sign('}')] + [] == [Sign('}')];
    TextStep(Sign(')'), [Sign('}')]);
    TextStep(Sign(']'), [Sign(')')] + [Sign('}')]);
  }

  function Asked(): seq<Part> {
    [Word("query")] + ([Sign('{')] + ([Word("a")] + Opened()))
  }

  lemma AskedText(after: string)
    ensures Text(Asked()) == "query{a(b:[" && Separated(Asked(), after)
    ensures TokensIn(Asked()) == Head() + [Syntax.Punct('[')]
  {
    hide Text, TokensIn, Separated, Opened;
    OpenedText(after);
    TextStep(Word("a"), Opened());
    TextStep(Sign('{'), [Word("a")] + Opened());
    TextStep(Word("query"), [Sign('{')] + ([Word("a")] + Opened()));
  }

  /** `query{a(b:["" "ab"])}` */
  function Source(): string {
    "query{a(b:[" + ("\"\"" + (" \"" + ("ab\"" + "])}")))
  }

  function ThreeTokens(): seq<Syntax.Token> {
    [Syntax.Lit(StringLit, "\"\""), Syntax.Lit(StringLit, " \""), Syntax.Lit(StringLit, "ab\"")]
  }

  function ClosedTokens(): seq<Syntax.Token> {
    [Syntax.Punct(']'), Syntax.Punct(')'), Syntax.Punct('}')]
  }

  lemma ThreeAndClosed(ident: Identifies, src: seq<byte>, l: Look)
    requires Ordinary(ident) && src != [] && Startable(src, l) && InSync(src, l)
    requires l.cur.at <= |src| && src[l.cur.at..] == Bytes("\"\"" + (" \"" + ("ab\"" + "])}")))
    ensures TokensOf(src, Stream(ident, src, l)) == ThreeTokens() + ClosedTokens()
  {
    hide InSync, Startable, Stream, Ordinary, Lexical, Separated, Text, TokensIn, Bytes, TokensOf, Closed, AllLexical;
    var m := ThreeStrings(ident, src, l, "])}");
    ClosedText();
    SignsAndLetters(ident, ClosedTokens());
    assert Text(Closed()) + "" == "])}";
    m := PartsRead(ident, src, m, Closed(), "");
    NothingLeft(ident, src, m);
    assert ClosedTokens() + [] == ClosedTokens();
  }

  lemma SourceRead(ident: Identifies)
    requires Ordinary(ident)
    ensures Lexed(ident, Bytes(Source())) == Print(Asking(Three()))
  {
    hide InSync, Startable, Stream, Ordinary, Lexical, Separated, Text, TokensIn, Bytes, First, TokensOf, Asked,
         AllLexical, Print;
    var src := Bytes(Source());
    AsciiStart(Source());
    FirstCharacter(src);
    var rest := "\"\"" + (" \"" + ("ab\"" + "])}"));
    AskedText(rest);
    SignsAndLetters(ident, Head() + [Syntax.Punct('[')]);
    var m := PartsRead(ident, src, First(src), Asked(), rest);
    ThreeAndClosed(ident, src, m);
    SameTokens();
  }

  lemma SameTokens()
    ensures Head() + [Syntax.Punct('[')] + (ThreeTokens() + ClosedTokens()) == Print(Asking(Three()))
  {
    hide Print;
    AskingPrinted(Three());
    ThreePrinted();
    assert Head() + [Syntax.Punct('[')] + (ThreeTokens() + ClosedTokens()) ==
           Head() + ([Syntax.Punct('[')] + ThreeTokens() + [Syntax.Punct(']')]) + Tail();
  }

  lemma AsciiStart(s: string)
    requires s != "" && s[0] as int < RUNE_SELF
    ensures Bytes(s) != [] && Bytes(s)[0] < RUNE_SELF && Bytes(s)[0..] == Bytes(s)
  {
  }

  lemma SignsAndLetters(ident: Identifies, ts: seq<Syntax.Token>)
    requires Ordinary(ident)
    requires forall t :: t in ts ==>
             (t.Punct? && Punctuator(t.ch as int)) || t == Name("a") || t == Name("b") || t == Name("query")
    ensures AllLexical(ident, ts)
  {
    hide Lexeme, Ordinary;
    forall t | t in ts
      ensures Lexical(ident, t)
    {
      if t.Lit? {
        LetterIsLexical(ident, t.text);
      }
    }
  }

  // ----- its text -----

  lemma ThreeText()
    ensures Text(LiteralParts(Three())) == "[\"\",  \", ab\"]"
  {
    hide Text, Remaining, Commas;
    var one, two, three := BasicLit(StringLit, "\"\""), BasicLit(StringLit, " \""), BasicLit(StringLit, "ab\"");
    assert [one, two, three][1..] == [two, three] && [two, three][1..] == [three] && [three][1..] == [];
    var items := EntryParts([one, two, three]);
    EntryAt([one, two, three]);
    BasicText(StringLit, "\"\"");
    BasicText(StringLit, " \"");
    BasicText(StringLit, "ab\"");
    AllRemaining(items);
    RemainingStep(items, 0);
    RemainingStep(items, 1);
    RemainingStep(items, 2);
    BracketsText('[', Commas(items), ']');
  }

  lemma AskingText(lit: Literal)
    requires '\n' !in Text(LiteralParts(lit))
    ensures Text(DocumentParts(Asking(lit))) == "query {\n  a(b:" + Text(LiteralParts(lit)) + ")\n}\n"
  {
    hide Text, LiteralParts, SetParts, DocumentParts, OperationParts, SelectionParts;
    var s := Field(FieldSelection("a", "a", [Argument("b", lit)], [], [], None));
    var op := Operation(QueryOp, "", [], [], [s]);
    var line := "a(b:" + Text(LiteralParts(lit)) + ")";
    FieldText(lit);
    OneLineSet(s, line);
    BareOperation(op);
    OneOperation(op);
    NothingText("");
    DefinitionText(OperationParts(op), []);
    assert "query" + (" {\n" + (INDENT + line + "\n") + "}") + "\n" + "" ==
           "query {\n  a(b:" + Text(LiteralParts(lit)) + ")\n}\n";
  }

  lemma FieldText(lit: Literal)
    ensures Text(SelectionParts(Field(FieldSelection("a", "a", [Argument("b", lit)], [], [], None)))) ==
            "a(b:" + Text(LiteralParts(lit)) + ")"
  {
    hide Text, LiteralParts, SelectionParts;
    NothingText("");
    SelectionText(Field(FieldSelection("a", "a", [Argument("b", lit)], [], [], None)));
    ArgumentText(Argument("b", lit));
    assert DirectivesParts([]) == [] && SetParts([]) == [];
  }

  lemma BareOperation(op: Operation)
    requires op.op == QueryOp && op.name == "" && op.directives == [] && op.vars == []
    ensures Text(OperationParts(op)) == "query" + Text(SetParts(op.selections))
  {
    hide Text, SetParts, OperationParts;
    NothingText("");
    OperationText(op);
    assert DirectivesParts([]) == [] && VariablesParts([]) == [];
  }

  lemma OneOperation(op: Operation)
    ensures DocumentParts(Document([op], [])) == OperationParts(op) + [Gap("\n")] + []
  {
    hide OperationParts;
    assert [op][1..] == [];
    assert OperationsParts([op]) == OperationParts(op) + [Gap("\n")] + [];
    assert DocumentParts(Document([op], [])) == OperationsParts([op]) + [];
  }

  lemma ArgumentText(arg: Argument)
    ensures Text(ArgumentsParts([arg])) == "(" + arg.name + ":" + Text(LiteralParts(arg.value)) + ")"
  {
    hide Text, LiteralParts;
    var item := [Word(arg.name), Sign(':')] + LiteralParts(arg.value);
    assert [arg][1..] == [];
    assert ArgumentParts([arg]) == [item];
    assert [item][1..] == [];
    assert Commas([item]) == item + [] == item;
    NamedText(arg.name, ':', LiteralParts(arg.value));
    BracketsText('(', Commas([item]), ')');
  }

  lemma OneLineSet(s: Selection, line: string)
    requires Text(SelectionParts(s)) == line && '\n' !in line
    ensures Text(SetParts([s])) == " {\n" + (INDENT + line + "\n") + "}"
  {
    hide Text, SelectionParts, SetParts, Indented;
    SetText([s]);
    assert [s][1..] == [];
    assert SelectionsText([s]) == line + "\n" + "";
    assert line + "\n" + "" == line + "\n";
    IndentedLine(line, INDENT);
    HangNothing(line, INDENT);
  }

  function Wrote(): seq<Part> {
    [Word("query")] + ([Gap(" ")] + ([Sign('{')] + ([Gap("\n  ")] + ([Word("a")] + Opened()))))
  }

  lemma WroteText(after: string)
    ensures Text(Wrote()) == "query {\n  a(b:[" && Separated(Wrote(), after)
    ensures TokensIn(Wrote()) == Head() + [Syntax.Punct('[')]
  {
    hide Text, TokensIn, Separated, Opened;
    OpenedText(after);
    TextStep(Word("a"), Opened());
    TextStep(Gap("\n  "), [Word("a")] + Opened());
    TextStep(Sign('{'), [Gap("\n  ")] + ([Word("a")] + Opened()));
    TextStep(Gap(" "), [Sign('{')] + ([Gap("\n  ")] + ([Word("a")] + Opened())));
    TextStep(Word("query"), [Gap(" ")] + ([Sign('{')] + ([Gap("\n  ")] + ([Word("a")] + Opened()))));
  }

  /** What follows the bracket in the text. */
  function Scattered(): string {
    "\"\"" + (",  \"" + (", " + ("ab" + ("\"])\n" + "}\n"))))
  }

  lemma WrittenText()
    ensures Text(DocumentParts(Asking(Three()))) == Text(Wrote()) + Scattered()
  {
    hide Text, DocumentParts, LiteralParts, Scattered, Wrote, TokensIn;
    ThreeText();
    AskingText(Three());
    WroteText("");
    SameText();
  }

  lemma SameText()
    ensures "query {\n  a(b:" + "[\"\",  \", ab\"]" + ")\n}\n" == "query {\n  a(b:[" + Scattered()
  {
    assert "[" + Scattered() == "[\"\",  \", ab\"]" + ")\n}\n";
    assert "query {\n  a(b:" + "[" == "query {\n  a(b:[";
  }

  /** A comma and two spaces after the left-over quote are the start of a string. */
  lemma CommaAndQuote(ident: Identifies, src: seq<byte>, l: Look, rest: string)
    requires Ordinary(ident) && src != [] && Startable(src, Look(QUOTE, l.cur)) && InSync(src, l)
    requires l.cur.at <= |src| && src[l.cur.at..] == Bytes(",  \"" + rest)
    ensures (var t := Scan(ident, src, Look(QUOTE, l.cur));
             && TokenOf(src, t) == Syntax.Lit(StringLit, ",  \"") && t.kind == STRING && Startable(src, t.after)
             && InSync(src, t.after) && t.after.cur.at <= |src| && src[t.after.cur.at..] == Bytes(rest))
  {
    hide InSync, Next, Startable, Scan, TokenOf, Bytes;
    NextOfLeftOver(src, l);
    assert ",  \"" + rest == [','] + ([' '] + ([' '] + (['"'] + rest)));
    CharFollows(src, l, ',', [' '] + ([' '] + (['"'] + rest)));
    var l2 := Next(src, l);
    CharFollows(src, l2, ' ', [' '] + (['"'] + rest));
    var l3 := Next(src, l2);
    CharFollows(src, l3, ' ', ['"'] + rest);
    var l4 := Next(src, l3);
    CharFollows(src, l4, '"', rest);
    assert StringBody(src, l3) == StringBody(src, l4) == l4;
    StringAt(ident, src, Look(QUOTE, l.cur));
    TextHere(src, Scan(ident, src, Look(QUOTE, l.cur)), ",  \"", rest);
  }

  /** The quote that was the end of a string now starts one, which the end of the line ends. */
  lemma QuoteToLineEnd(ident: Identifies, src: seq<byte>, l: Look, rest: string)
    requires Ordinary(ident) && src != [] && Startable(src, l) && InSync(src, l)
    requires l.cur.at <= |src| && src[l.cur.at..] == Bytes("\"])\n" + rest)
    ensures (var t := Scan(ident, src, l);
             && TokenOf(src, t) == Syntax.Lit(StringLit, "\"])\n") && t.kind == STRING && Startable(src, t.after)
             && InSync(src, t.after) && t.after.cur.at <= |src| && src[t.after.cur.at..] == Bytes(rest))
  {
    hide InSync, Next, Startable, Scan, TokenOf, Bytes;
    assert "\"])\n" + rest == ['"'] + ([']'] + ([')'] + (['\n'] + rest)));
    CharFollows(src, l, '"', [']'] + ([')'] + (['\n'] + rest)));
    var l2 := Next(src, l);
    CharFollows(src, l2, ']', [')'] + (['\n'] + rest));
    var l3 := Next(src, l2);
    CharFollows(src, l3, ')', ['\n'] + rest);
    var l4 := Next(src, l3);
    CharFollows(src, l4, '\n', rest);
    assert StringBody(src, l3) == StringBody(src, l4) == Fail(l4);
    WalkedFail(src, l4, true);
    WalkedNext(src, Fail(l4));
    WalkedForward(src, Fail(l4), Next(src, Fail(l4)));
    StringAt(ident, src, l);
    TextHere(src, Scan(ident, src, l), "\"])\n", rest);
  }

  /** A name before a quote. */
  lemma NameRead(ident: Identifies, src: seq<byte>, l: Look, rest: string)
    requires Ordinary(ident) && src != [] && Startable(src, l) && InSync(src, l)
    requires l.cur.at <= |src| && src[l.cur.at..] == Bytes("ab" + (['"'] + rest))
    ensures (var t := Scan(ident, src, l);
             && TokenOf(src, t) == Name("ab") && t.kind == IDENT && Startable(src, t.after)
             && InSync(src, t.after) && t.after.cur.at <= |src| && src[t.after.cur.at..] == Bytes(['"'] + rest))
  {
    hide InSync, Next, Startable, Bytes;
    ScanReached(ident, src, l);
    assert "ab" + (['"'] + rest) == ['a'] + (['b'] + (['"'] + rest));
    CharFollows(src, l, 'a', ['b'] + (['"'] + rest));
    var l2 := Next(src, l);
    CharFollows(src, l2, 'b', ['"'] + rest);
    var l3 := Next(src, l2);
    CharFollows(src, l3, '"', rest);
    NoName(ident, QUOTE);
    NameLetters(ident);
    assert IdentBody(ident, src, l2, 1) == IdentBody(ident, src, l3, 2) == l3;
    assert Skip(ident, src, l) == l;
    NameHere(src, Scan(ident, src, l), ['"'] + rest);
  }

  lemma NameLetters(ident: Identifies)
    requires Ordinary(ident)
    ensures ident('a' as int, 0) && ident('b' as int, 1) && !ident(QUOTE, 2)
  {
  }

  lemma NameHere(src: seq<byte>, t: Token, rest: string)
    requires t.kind == IDENT && t.from <= |src| && src[t.from..] == Bytes("ab" + rest) && t.to == t.from + 2
    ensures TokenOf(src, t) == Name("ab") && t.to <= |src| && src[t.to..] == Bytes(rest)
  {
    BytesJoined("ab", rest);
    assert src[t.from..][..2] == src[t.from..t.to] == Bytes("ab");
    assert src[t.from..][2..] == src[t.to..];
    assert Chars(Bytes("ab")) == "ab";
  }

  function ScatteredTokens(): seq<Syntax.Token> {
    [Syntax.Lit(StringLit, "\"\""), Syntax.Lit(StringLit, ",  \""), Name("ab"), Syntax.Lit(StringLit, "\"])\n"),
     Syntax.Punct('}')]
  }

  lemma ScatteredRead(ident: Identifies, src: seq<byte>, l: Look)
    requires Ordinary(ident) && src != [] && Startable(src, l) && InSync(src, l)
    requires l.cur.at <= |src| && src[l.cur.at..] == Bytes(Scattered())
    ensures TokensOf(src, Stream(ident, src, l)) == ScatteredTokens()
  {
    hide InSync, Startable, Stream, Ordinary, Bytes, TokensOf, Scan, TokenOf, Next;
    var three := "ab" + ("\"])\n" + "}\n");
    var two := ", " + three;
    EmptyRead(ident, src, l, ",  \"" + two);
    StreamStarts(ident, src, l);
    var t1 := Scan(ident, src, l);
    CommaAndQuote(ident, src, Next(src, Next(src, l)), two);
    StreamStarts(ident, src, t1.after);
    var t2 := Scan(ident, src, t1.after);
    NamesAndBrace(ident, src, t2.after);
  }

  lemma NamesAndBrace(ident: Identifies, src: seq<byte>, l: Look)
    requires Ordinary(ident) && src != [] && Startable(src, l) && InSync(src, l)
    requires l.cur.at <= |src| && src[l.cur.at..] == Bytes(", " + ("ab" + ("\"])\n" + "}\n")))
    ensures TokensOf(src, Stream(ident, src, l)) == ScatteredTokens()[2..]
  {
    hide InSync, Startable, Stream, Ordinary, Bytes, TokensOf, Scan, TokenOf;
    var m := GapRead(ident, src, l, ", ", "ab" + ("\"])\n" + "}\n"));
    assert "\"])\n" + "}\n" == ['"'] + "])\n}\n";
    NameRead(ident, src, m, "])\n}\n");
    StreamStarts(ident, src, m);
    var t3 := Scan(ident, src, m);
    QuoteToLineEnd(ident, src, t3.after, "}\n");
    StreamStarts(ident, src, t3.after);
    BraceRead(ident, src, Scan(ident, src, t3.after).after);
  }

  lemma BraceRead(ident: Identifies, src: seq<byte>, l: Look)
    requires Ordinary(ident) && src != [] && Startable(src, l) && InSync(src, l)
    requires l.cur.at <= |src| && src[l.cur.at..] == Bytes("}\n")
    ensures TokensOf(src, Stream(ident, src, l)) == [Syntax.Punct('}')]
  {
    hide InSync, Startable, Stream, Ordinary, Bytes, TokensOf, Lexical, Text, TokensIn, Separated;
    var parts := [Sign('}')] + [Gap("\n")];
    NothingText("");
    TextStep(Gap("\n"), []);
    assert [Gap("\n")] + [] == [Gap("\n")];
    TextStep(Sign('}'), [Gap("\n")]);
    SignsAndLetters(ident, [Syntax.Punct('}')]);
    assert IsGap("\n");
    assert Text(parts) + "" == "}\n";
    var m := PartsRead(ident, src, l, parts, "");
    NothingLeft(ident, src, m);
  }

  lemma WrittenScattered(ident: Identifies)
    requires Ordinary(ident)
    ensures Lexed(ident, Written(Asking(Three()))) == Head() + [Syntax.Punct('[')] + ScatteredTokens()
  {
    hide InSync, Startable, Stream, Ordinary, Lexical, Separated, Text, TokensIn, Bytes, First, TokensOf, Wrote,
         AllLexical;
    hide DocumentParts;
    WrittenText();
    WroteText(Scattered());
    var src := Written(Asking(Three()));
    AsciiStart(Text(Wrote()) + Scattered());
    FirstCharacter(src);
    SignsAndLetters(ident, Head() + [Syntax.Punct('[')]);
    var m := PartsRead(ident, src, First(src), Wrote(), Scattered());
    ScatteredRead(ident, src, m);
  }

  // ----- and what the parser makes of it -----

  lemma {:induction false} NoBracket(ts: seq<Syntax.Token>)
    requires ts != [] && ts[|ts| - 1] == Syntax.Punct('}')
    requires forall i | 0 <= i < |ts| - 1 :: ts[i].Lit? && ts[i] != Name("null")
    ensures Syntax.ParseEntries(ts, false).Err?
    decreases |ts|
  {
    if |ts| > 1 {
      NoBracket(ts[1..]);
      assert Syntax.ParseLiteral(ts, false) == Syntax.Ok(BasicLit(ts[0].kind, ts[0].text), ts[1..]);
    }
  }

  lemma NoField(ts: seq<Syntax.Token>, rest: seq<Syntax.Token>)
    requires ts == [Name("a"), Syntax.Punct('('), Name("b"), Syntax.Punct(':'), Syntax.Punct('[')] + rest
    requires Syntax.ParseEntries(rest, false).Err?
    ensures Syntax.ParseField(ts).Err?
  {
    hide Syntax.ParseEntries;
    var t3 := ts[1..][1..][1..][1..];
    assert t3 == [Syntax.Punct('[')] + rest && t3[1..] == rest;
    assert Syntax.ParseLiteral(t3, false).Err?;
    assert Syntax.ParseArgument(ts[1..][1..]).Err?;
    assert Syntax.ParseArgs(ts[1..][1..]).Err?;
    assert Syntax.ParseOptionalArguments(ts[1..]).Err?;
  }

  lemma NoDocument(ts: seq<Syntax.Token>, rest: seq<Syntax.Token>)
    requires ts == [Name("query"), Syntax.Punct('{')] + rest && rest != [] && rest[0] == Name("a")
    requires Syntax.ParseField(rest).Err?
    ensures Syntax.Parse(ts).None?
  {
    hide Syntax.ParseField;
    assert ts[1..][1..] == rest;
    assert Syntax.ParseSelections(rest).Err?;
    assert Syntax.ParseSelectionSet(ts[1..]).Err?;
    assert Syntax.ParseOperation(ts[1..], QueryOp).Err?;
  }

  /** A document with an empty string in a list, read from a source, is not read from its own text: behind the
      empty string the text has a comma, and the left-over quote takes it for the start of a string. */
  lemma EmptyStringLost(ident: Identifies)
    requires Ordinary(ident)
    ensures ReadDocument(ident, Bytes("query{a(b:[\"\" \"ab\"])}")) == Some(Asking(Three()))
    ensures RoundTrip.Printable(Asking(Three())) && FlatDocument.Flat(Asking(Three()))
    ensures ReadDocument(ident, Written(Asking(Three()))) == None
  {
    hide Lexed, Bytes, Syntax.Parse, Print, FlatDocument.Flat, RoundTrip.Printable;
    SourceRead(ident);
    assert Source() == "query{a(b:[\"\" \"ab\"])}";
    ThreeIsOk();
    AskingOk(Three());
    WrittenScattered(ident);
    NotParsed();
    ThreeIsFlat();
  }

  lemma ThreeIsOk()
    ensures RoundTrip.LiteralOk(Three(), false)
  {
  }

  lemma NotParsed()
    ensures Syntax.Parse(Head() + [Syntax.Punct('[')] + ScatteredTokens()).None?
  {
    hide Syntax.Parse, Syntax.ParseField, Syntax.ParseEntries;
    NoBracket(ScatteredTokens());
    var field := [Name("a"), Syntax.Punct('('), Name("b"), Syntax.Punct(':'), Syntax.Punct('[')] + ScatteredTokens();
    NoField(field, ScatteredTokens());
    assert Head() + [Syntax.Punct('[')] + ScatteredTokens() == [Name("query"), Syntax.Punct('{')] + field;
    NoDocument(Head() + [Syntax.Punct('[')] + ScatteredTokens(), field);
  }

  lemma ThreeIsFlat()
    ensures FlatDocument.Flat(Asking(Three()))
  {
    hide PrintSelectionSet, FlatDocument.OneLine, Print;
    var op := Asking(Three()).operations[0];
    AskingPrinted(Three());
    ThreePrinted();
    SetPrinted(Three());
    forall t | t in Print(Asking(Three())) && t.Lit?
      ensures FlatDocument.OneLine(t.text)
    {
      NoFeed(t.text);
    }
    assert PrintVariables(op.vars) == [];
  }

  lemma NoFeed(text: string)
    requires text == "query" || text == "a" || text == "b" || text == "\"\"" || text == " \"" || text == "ab\""
    ensures FlatDocument.OneLine(text)
  {
  }
}
