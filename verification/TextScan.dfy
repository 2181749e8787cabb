/**
 Text put together from tokens and the gaps between them, and what the scanner
 finds in it.
 */
module TextScan {
  import opened Query
  import opened Utf8
  import opened ScannerSpec
  import opened ScannerPositions
  import opened ScannerRuns
  import opened ScannerLocality
  import opened TokenStream
  import opened Reading
  import Syntax

  /** A token, or white space and commas. */
  datatype Part = Tok(token: Syntax.Token) | Gap(text: string)

  function TokenText(t: Syntax.Token): string {
    match t
    case Punct(c) => [c]
    case Lit(_, text) => text
  }

  function PartText(p: Part): string {
    match p
    case Tok(t) => TokenText(t)
    case Gap(text) => text
  }

  function Text(parts: seq<Part>): string {
    if parts == [] then "" else PartText(parts[0]) + Text(parts[1..])
  }

  function TokensIn(parts: seq<Part>): seq<Syntax.Token> {
    if parts == [] then [] else (if parts[0].Tok? then [parts[0].token] else []) + TokensIn(parts[1..])
  }

  lemma {:induction false} TextJoined(a: seq<Part>, b: seq<Part>)
    ensures Text(a + b) == Text(a) + Text(b) && TokensIn(a + b) == TokensIn(a) + TokensIn(b)
  {
    hide PartText;
    if a == [] {
      assert a + b == b;
    } else {
      var rest := a[1..];
      assert (a + b)[0] == a[0] && (a + b)[1..] == rest + b;
      TextJoined(rest, b);
      assert PartText(a[0]) + (Text(rest) + Text(b)) == (PartText(a[0]) + Text(rest)) + Text(b);
    }
  }

  // ----- tokens that stay apart -----

  function KindNumber(kind: LiteralKind): int {
    match kind
    case IdentLit => IDENT
    case IntLit => INT
    case FloatLit => FLOAT
    case StringLit => STRING
    case BlockStringLit => BLOCK_STRING
  }

  /** The token is found in some source; a punctuator is ASCII. */
  ghost predicate Lexical(ident: Identifies, t: Syntax.Token) {
    match t
    case Punct(c) => Punctuator(c as int)
    case Lit(kind, text) => Chars(Bytes(text)) == text && Lexeme(ident, KindNumber(kind), Bytes(text))
  }

  predicate Punctuator(c: int) {
    0 <= c < RUNE_SELF && !NameChar(c) && !IsSpace(c) && c != '"' as int && c != '#' as int && c != COMMA
  }

  predicate IsGap(text: string) {
    forall c :: c in text ==> c == ' ' || c == '\n' || c == ','
  }

  /** Something follows that does not go on with a name or a literal. */
  predicate Ends(after: string) {
    after != "" && EndsToken(after[0] as int)
  }

  /** The token can be told from what follows. */
  ghost predicate Apart(ident: Identifies, t: Syntax.Token, after: string) {
    && Lexical(ident, t)
    && (t.Lit? ==> Ends(after))
    && (t == Syntax.Punct('.') && after != "" ==> !IsDecimal(after[0] as int % 256))
  }

  /** After a literal comes what ends it, after a point no digit. */
  predicate Follow(p: Part, rest: seq<Part>, after: string) {
    match p
    case Gap(text) => IsGap(text)
    case Tok(Lit(_, _)) => Ends(Text(rest) + after)
    case Tok(Punct(c)) =>
      c != '.' || (rest != [] && match rest[0]
                                 case Gap(text) => text != ""
                                 case Tok(Punct(d)) => d == '.'
                                 case Tok(Lit(kind, _)) => kind == IdentLit)
  }

  /** No token runs into what comes after it; `after` is the text behind the parts. */
  predicate Separated(parts: seq<Part>, after: string) {
    parts == [] || (Follow(parts[0], parts[1..], after) && Separated(parts[1..], after))
  }

  lemma {:induction false} SeparatedJoined(a: seq<Part>, b: seq<Part>, after: string)
    requires Separated(a, Text(b) + after) && Separated(b, after)
    ensures Separated(a + b, after)
  {
    if a == [] {
      assert a + b == b;
    } else {
      assert (a + b)[1..] == a[1..] + b;
      TextJoined(a[1..], b);
      assert Text(a[1..]) + (Text(b) + after) == Text(a[1..] + b) + after;
      SeparatedJoined(a[1..], b, after);
    }
  }

  ghost predicate AllLexical(ident: Identifies, ts: seq<Syntax.Token>) {
    forall t :: t in ts ==> Lexical(ident, t)
  }

  lemma NameStart(ident: Identifies, text: seq<byte>)
    requires Ordinary(ident) && Lexeme(ident, IDENT, text)
    ensures text != [] && !IsDecimal(text[0])
  {
    hide InSync, IdentBody, Next, NumberToken, QuotedToken;
    var src, l :| FoundAt(ident, src, l, IDENT, text);
    NumberKind(src, l.cur.at, l, false);
    NumberKind(src, l.cur.at, Next(src, l), true);
    QuotedIsNoName(src, l);
    assert ident(l.ch, 0);
    assert src[l.cur.at..TokenAt(ident, src, l).1.cur.at][0] == src[l.cur.at];
    if IsDecimal(text[0]) {
      AsciiLook(src, l);
    }
  }

  lemma NumberKind(src: seq<byte>, start: nat, l: Look, seenDot: bool)
    ensures NumberToken(src, start, l, seenDot).0 == INT || NumberToken(src, start, l, seenDot).0 == FLOAT
  {
    hide Digits, ExponentDigits;
  }

  lemma QuotedIsNoName(src: seq<byte>, l: Look)
    ensures QuotedToken(src, l).0 != IDENT
  {
    hide StringBody, BlockBody;
  }

  /** Followed as they should be, tokens found in sources can be told apart. */
  lemma FollowedApart(ident: Identifies, t: Syntax.Token, rest: seq<Part>, after: string)
    requires Ordinary(ident) && Follow(Tok(t), rest, after)
    requires AllLexical(ident, [t] + TokensIn(rest)) && (t.Punct? ==> Separated(rest, after))
    ensures Apart(ident, t, Text(rest) + after)
  {
    hide Lexeme, Ordinary;
    assert t in [t] + TokensIn(rest);
    if t == Syntax.Punct('.') {
      match rest[0]
      case Gap(text) => assert text[0] in text;
      case Tok(Punct(_)) =>
      case Tok(Lit(kind, text)) =>
        assert rest[0].token in TokensIn(rest) && rest[0].token in [t] + TokensIn(rest);
        NameStart(ident, Bytes(text));
    }
  }

  // ----- scanning -----

  lemma SpacePassed(ident: Identifies, src: seq<byte>, l: Look)
    requires src != [] && Startable(src, l) && InSync(src, l) && IsSpace(l.ch)
    ensures (var m := Next(src, l);
             && Startable(src, m) && InSync(src, m) && m.cur.at == l.cur.at + l.cur.width
             && Stream(ident, src, l) == Stream(ident, src, m))
  {
    hide Placed, InSync, Next, TokenAt;
    var m := Next(src, l);
    GoodIs(src, l);
    NextReached(src, l);
    GoodIs(src, m);
    assert SkipSpace(src, l) == SkipSpace(src, m);
    assert Skip(ident, src, l) == Skip(ident, src, m);
    assert Scan(ident, src, l) == Scan(ident, src, m);
    SameScanSameStream(ident, src, l, m);
  }

  lemma SameScanSameStream(ident: Identifies, src: seq<byte>, l: Look, m: Look)
    requires src != [] && Startable(src, l) && Startable(src, m) && Scan(ident, src, l) == Scan(ident, src, m)
    ensures Stream(ident, src, l) == Stream(ident, src, m)
  {
    hide Scan, Startable;
    ScanReached(ident, src, l);
    ScanReached(ident, src, m);
    SignificantUnfolds(ident, src, l);
    SignificantUnfolds(ident, src, m);
    SignificantReached(ident, src, l);
    SignificantReached(ident, src, m);
  }

  lemma AsciiLook(src: seq<byte>, l: Look)
    requires InSync(src, l) && l.cur.at < |src| && src[l.cur.at] < RUNE_SELF
    ensures l.ch == src[l.cur.at] && l.cur.width == 1
  {
    AsciiIsItself(src[l.cur.at..]);
  }

  /** A punctuator or a comma is a token of its own, unless it is the point of a number. */
  lemma CharacterScanned(ident: Identifies, src: seq<byte>, l: Look)
    requires Ordinary(ident) && src != [] && Startable(src, l) && InSync(src, l)
    requires Punctuator(l.ch) || l.ch == COMMA
    requires l.ch == '.' as int ==> !IsDecimal(Next(src, l).ch)
    ensures (var t := Scan(ident, src, l);
             && t.kind == l.ch && t.after == Next(src, l) && Startable(src, t.after) && InSync(src, t.after)
             && t.from == l.cur.at && t.to == l.cur.at + l.cur.width)
  {
    hide Placed, InSync, Next, NumberToken, QuotedToken, IdentBody;
    GoodIs(src, l);
    NextReached(src, l);
    GoodIs(src, Next(src, l));
    assert Skip(ident, src, l) == l;
  }

  lemma CommaPassed(ident: Identifies, src: seq<byte>, l: Look)
    requires Ordinary(ident) && src != [] && Startable(src, l) && InSync(src, l) && l.ch == COMMA
    ensures (var m := Next(src, l);
             && Startable(src, m) && InSync(src, m) && m.cur.at == l.cur.at + l.cur.width
             && Stream(ident, src, l) == Stream(ident, src, m))
  {
    hide Placed, InSync, Next, Scan, Startable;
    CharacterScanned(ident, src, l);
    SameStream(ident, src, l);
  }

  lemma FirstByte(src: seq<byte>, p: nat, s: string)
    requires p <= |src| && s != "" && Bytes(s) <= src[p..]
    ensures p < |src| && src[p] == s[0] as int % 256 && Bytes(s[1..]) <= src[p + 1..]
    ensures Bytes(s) == src[p..] ==> Bytes(s[1..]) == src[p + 1..]
  {
    assert Bytes(s)[0] == src[p..][0];
    assert Bytes(s)[1..] == Bytes(s[1..]) && src[p..][1..] == src[p + 1..];
  }

  lemma {:induction false} GapPassed(ident: Identifies, src: seq<byte>, l: Look, gap: string) returns (m: Look)
    requires Ordinary(ident) && src != [] && Startable(src, l) && InSync(src, l) && IsGap(gap)
    requires l.cur.at <= |src| && Bytes(gap) <= src[l.cur.at..]
    ensures Startable(src, m) && InSync(src, m) && m.cur.at == l.cur.at + |gap|
    ensures Stream(ident, src, l) == Stream(ident, src, m)
    decreases |gap|
  {
    hide InSync, Startable, Stream, Next, Bytes;
    m := l;
    if gap != "" {
      FirstByte(src, l.cur.at, gap);
      assert gap[0] in gap;
      assert forall c :: c in gap[1..] ==> c in gap;
      AsciiLook(src, l);
      if gap[0] == ',' {
        CommaPassed(ident, src, l);
      } else {
        SpacePassed(ident, src, l);
      }
      m := Next(src, l);
      m := GapPassed(ident, src, m, gap[1..]);
    }
  }

  // ----- a token in its place -----

  lemma PunctRead(ident: Identifies, src: seq<byte>, l: Look, c: char, after: string)
    requires Ordinary(ident) && src != [] && Startable(src, l) && InSync(src, l)
    requires l.cur.at <= |src| && Apart(ident, Syntax.Punct(c), after) && src[l.cur.at..] == Bytes([c] + after)
    ensures (var t := Scan(ident, src, l);
             && TokenOf(src, t) == Syntax.Punct(c) && t.kind != COMMA && t.kind != EOF
             && Startable(src, t.after) && InSync(src, t.after)
             && t.after.cur.at <= |src| && src[t.after.cur.at..] == Bytes(after))
  {
    hide InSync, Startable, Next, Scan, Bytes, NameChar, Step;
    FirstByte(src, l.cur.at, [c] + after);
    assert ([c] + after)[1..] == after;
    AsciiLook(src, l);
    var m := Next(src, l);
    WalkedNext(src, l);
    WalkedForward(src, l, m);
    if c == '.' {
      NotDecimal(src, m, after);
    }
    CharacterScanned(ident, src, l);
  }

  lemma NotDecimal(src: seq<byte>, m: Look, after: string)
    requires InSync(src, m) && m.cur.at <= |src| && src[m.cur.at..] == Bytes(after) &&
             (after != "" ==> !IsDecimal(after[0] as int % 256))
    ensures !IsDecimal(m.ch)
  {
    if after == "" {
      assert m.cur.width == 0;
    } else {
      assert src[m.cur.at] == Bytes(after)[0];
      AsciiIsItself(src[m.cur.at..]);
    }
  }

  /** Where a name or a literal starts there is no space and no comment. */
  lemma NothingSkipped(ident: Identifies, src: seq<byte>, l: Look)
    requires Ordinary(ident) && IsLiteral(TokenAt(ident, src, l).0)
    ensures Skip(ident, src, l) == l
  {
    hide NumberToken, QuotedToken, IdentBody;
  }

  lemma LexemeRead(ident: Identifies, src: seq<byte>, l: Look, kind: LiteralKind, text: string, after: string)
    requires Ordinary(ident) && src != [] && Startable(src, l) && InSync(src, l)
    requires Apart(ident, Syntax.Lit(kind, text), after)
    requires l.cur.at <= |src| && src[l.cur.at..] == Bytes(text + after)
    ensures (var t := Scan(ident, src, l);
             && TokenOf(src, t) == Syntax.Lit(kind, text) && t.kind != COMMA && t.kind != EOF
             && Startable(src, t.after) && InSync(src, t.after)
             && t.after.cur.at <= |src| && src[t.after.cur.at..] == Bytes(after))
  {
    hide InSync, Startable, Skip, TokenAt, Lexeme, Ordinary, EndsToken, Bytes, Chars;
    var p, n := l.cur.at, |text|;
    BytesJoined(text, after);
    assert src[p..][..n] == src[p..p + n] == Bytes(text);
    assert src[p..][n..] == src[p + n..] == Bytes(after);
    BytesEnd(after);
    assert src[p + n..][0] == src[p + n];
    LexemeAnywhere(ident, KindNumber(kind), Bytes(text), src, l);
    NothingSkipped(ident, src, l);
    ScanReached(ident, src, l);
  }

  lemma BytesEnd(after: string)
    requires Ends(after)
    ensures Bytes(after) != [] && EndsToken(Bytes(after)[0])
  {
  }

  lemma TokenRead(ident: Identifies, src: seq<byte>, l: Look, t: Syntax.Token, after: string)
    requires Ordinary(ident) && src != [] && Startable(src, l) && InSync(src, l) && Apart(ident, t, after)
    requires l.cur.at <= |src| && src[l.cur.at..] == Bytes(TokenText(t) + after)
    ensures (var m := Scan(ident, src, l).after;
             && Startable(src, m) && InSync(src, m) && m.cur.at <= |src| && src[m.cur.at..] == Bytes(after)
             && TokensOf(src, Stream(ident, src, l)) == [t] + TokensOf(src, Stream(ident, src, m)))
  {
    hide InSync, Startable, Stream, Bytes, Apart, Ordinary, Scan;
    match t {
      case Punct(c) => PunctRead(ident, src, l, c, after);
      case Lit(kind, text) => LexemeRead(ident, src, l, kind, text, after);
    }
    StreamStarts(ident, src, l);
  }

  lemma GapRead(ident: Identifies, src: seq<byte>, l: Look, gap: string, after: string) returns (m: Look)
    requires Ordinary(ident) && src != [] && Startable(src, l) && InSync(src, l) && IsGap(gap)
    requires l.cur.at <= |src| && src[l.cur.at..] == Bytes(gap + after)
    ensures Startable(src, m) && InSync(src, m) && m.cur.at <= |src| && src[m.cur.at..] == Bytes(after)
    ensures Stream(ident, src, l) == Stream(ident, src, m)
  {
    hide InSync, Startable, Stream, Bytes, Ordinary;
    BytesJoined(gap, after);
    assert src[l.cur.at..][|gap|..] == src[l.cur.at + |gap|..];
    m := GapPassed(ident, src, l, gap);
  }

  lemma PartRead(ident: Identifies, src: seq<byte>, l: Look, p: Part, more: seq<Part>, rest: string) returns (m: Look)
    requires Ordinary(ident) && src != [] && Startable(src, l) && InSync(src, l)
    requires Follow(p, more, rest) && Separated(more, rest)
    requires (p.Tok? ==> Lexical(ident, p.token)) && AllLexical(ident, TokensIn(more))
    requires l.cur.at <= |src| && src[l.cur.at..] == Bytes(PartText(p) + (Text(more) + rest))
    ensures Startable(src, m) && InSync(src, m) && m.cur.at <= |src| && src[m.cur.at..] == Bytes(Text(more) + rest)
    ensures TokensOf(src, Stream(ident, src, l)) ==
            (if p.Tok? then [p.token] else []) + TokensOf(src, Stream(ident, src, m))
  {
    hide InSync, Startable, Stream, Bytes, Apart, Ordinary, Scan, Lexical, Follow, Text, TokensOf, Separated;
    match p {
      case Gap(gap) =>
        GapIsGap(gap, more, rest);
        m := GapRead(ident, src, l, gap, Text(more) + rest);
      case Tok(t) =>
        FollowedApart(ident, t, more, rest);
        TokenRead(ident, src, l, t, Text(more) + rest);
        m := Scan(ident, src, l).after;
    }
  }

  /** The scanner finds the tokens that the text was put together from, and comes to what follows. */
  lemma {:induction false} PartsRead(ident: Identifies, src: seq<byte>, l: Look, parts: seq<Part>, rest: string)
    returns (m: Look)
    requires Ordinary(ident) && Separated(parts, rest) && AllLexical(ident, TokensIn(parts))
    requires src != [] && Startable(src, l) && InSync(src, l)
    requires l.cur.at <= |src| && src[l.cur.at..] == Bytes(Text(parts) + rest)
    ensures Startable(src, m) && InSync(src, m) && m.cur.at <= |src| && src[m.cur.at..] == Bytes(rest)
    ensures TokensOf(src, Stream(ident, src, l)) == TokensIn(parts) + TokensOf(src, Stream(ident, src, m))
    decreases |parts|
  {
    hide InSync, Startable, Stream, Bytes, Ordinary, Lexical, Follow, PartText, TokensOf;
    if parts == [] {
      assert "" + rest == rest;
      m := l;
    } else {
      var p, more := parts[0], parts[1..];
      assert Text(parts) + rest == PartText(p) + (Text(more) + rest);
      var next := PartRead(ident, src, l, p, more, rest);
      m := PartsRead(ident, src, next, more, rest);
    }
  }

  lemma GapIsGap(gap: string, rest: seq<Part>, after: string)
    requires Follow(Gap(gap), rest, after)
    ensures IsGap(gap)
  {
  }

  lemma NothingLeft(ident: Identifies, src: seq<byte>, l: Look)
    requires src != [] && Startable(src, l) && InSync(src, l) && l.cur.at <= |src| && src[l.cur.at..] == Bytes("")
    ensures TokensOf(src, Stream(ident, src, l)) == []
  {
    assert l.cur.width == 0;
    assert Scan(ident, src, l).kind == EOF;
  }

  lemma StreamStarts(ident: Identifies, src: seq<byte>, l: Look)
    requires src != [] && Startable(src, l) && Scan(ident, src, l).kind != COMMA && Scan(ident, src, l).kind != EOF
    ensures Startable(src, Scan(ident, src, l).after)
    ensures (var t := Scan(ident, src, l);
             TokensOf(src, Stream(ident, src, l)) == [TokenOf(src, t)] + TokensOf(src, Stream(ident, src, t.after)))
  {
    hide Scan, Startable;
    ScanReached(ident, src, l);
    SignificantUnfolds(ident, src, l);
    SignificantReached(ident, src, l);
    var t := Scan(ident, src, l);
    assert Stream(ident, src, l)[1..] == Stream(ident, src, t.after);
  }

  lemma FirstCharacter(src: seq<byte>)
    requires src != [] && src[0] < RUNE_SELF
    ensures Startable(src, First(src)) && InSync(src, First(src)) && First(src).cur.at == 0
  {
    hide Placed, InSync;
    FirstIsStartable(src);
    AsciiIsItself(src[0..]);
  }

  /** A text put together from tokens that stay apart is read as just these tokens. */
  lemma TextRead(ident: Identifies, parts: seq<Part>)
    requires Ordinary(ident) && Separated(parts, "") && AllLexical(ident, TokensIn(parts))
    requires Text(parts) != "" ==> Text(parts)[0] as int < RUNE_SELF
    ensures Lexed(ident, Bytes(Text(parts))) == TokensIn(parts)
  {
    hide InSync, Startable, Stream, Ordinary, First, Separated, AllLexical;
    var src := Bytes(Text(parts));
    if src == [] {
      if TokensIn(parts) != [] {
        TokensHaveText(ident, parts);
      }
    } else {
      FirstCharacter(src);
      assert src[0..] == src;
      assert Text(parts) + "" == Text(parts);
      var m := PartsRead(ident, src, First(src), parts, "");
      NothingLeft(ident, src, m);
    }
  }

  lemma {:induction false} TokensHaveText(ident: Identifies, parts: seq<Part>)
    requires AllLexical(ident, TokensIn(parts)) && TokensIn(parts) != []
    ensures Text(parts) != ""
    decreases |parts|
  {
    hide Lexical;
    if parts[0].Tok? {
      assert parts[0].token in TokensIn(parts);
      LexicalHasText(ident, parts[0].token);
    } else {
      TokensHaveText(ident, parts[1..]);
    }
  }

  lemma LexicalHasText(ident: Identifies, t: Syntax.Token)
    requires Lexical(ident, t)
    ensures TokenText(t) != ""
  {
  }
}
