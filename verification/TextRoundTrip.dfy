/**
 Whole texts: a source is scanned and parsed, the document printed, and the text
 scanned and parsed again.
 */
module TextRoundTrip {
  import opened Wrappers
  import opened Query
  import opened Utf8
  import opened ScannerSpec
  import opened ScannerPositions
  import opened ScannerRuns
  import opened ScannerLocality
  import opened TokenStream
  import opened Reading
  import opened TextScan
  import opened PrintedText
  import opened IndentedDocument
  import opened PrintedTokens
  import opened FlatDocument
  import opened Printing
  import opened Parsed
  import opened Taken
  import RoundTrip
  import Unprintable
  import Syntax

  // ----- the tokens read -----

  /** No string literal of the source is empty. */
  ghost predicate NoEmptyLiteral(ident: Identifies, src: seq<byte>) {
    forall t :: t in Lexed(ident, src) ==> t != Syntax.Lit(StringLit, "\"\"")
  }

  lemma ScanFound(ident: Identifies, src: seq<byte>, l: Look)
    requires Ordinary(ident) && src != [] && Startable(src, l) && InSync(src, l)
    ensures (var t := Scan(ident, src, l);
             IsLiteral(t.kind) && InSync(src, t.after) && t.from < t.to < |src| ==>
               Lexeme(ident, t.kind, src[t.from..t.to]))
    ensures (var t := Scan(ident, src, l);
             IsLiteral(t.kind) && t.from < t.to <= |src| ==> src[t.from] as int != '-' as int)
  {
    hide Placed, InSync, TokenAt;
    SkipReached(ident, src, l);
    var l2 := Skip(ident, src, l);
    var t := Scan(ident, src, l);
    if IsLiteral(t.kind) && InSync(src, t.after) && t.from < t.to < |src| {
      assert FoundAt(ident, src, l2, t.kind, src[t.from..t.to]);
    }
    if IsLiteral(t.kind) && t.from < t.to <= |src| {
      NoMinus(ident, src, l2);
    }
  }

  lemma NoMinus(ident: Identifies, src: seq<byte>, l: Look)
    requires Ordinary(ident) && InSync(src, l) && IsLiteral(TokenAt(ident, src, l).0) && l.cur.at < |src|
    ensures src[l.cur.at] as int != '-' as int
  {
    hide IdentBody, NumberToken, QuotedToken;
    if src[l.cur.at] as int == '-' as int {
      AsciiLook(src, l);
    }
  }

  /** What is known of a token scanned in step with the source. */
  ghost predicate Found(ident: Identifies, src: seq<byte>, p: nat, t: Token) {
    && (t.kind != EOF ==> p <= t.from < t.to <= |src|)
    && (IsLiteral(t.kind) && t.from < t.to <= |src| ==> src[t.from] as int != '-' as int)
    && (InSync(src, t.after) <==> !IsEmptyLiteral(src, t.kind, t.from, t.to))
    && (IsLiteral(t.kind) && InSync(src, t.after) && t.from < t.to < |src| ==> Lexeme(ident, t.kind, src[t.from..t.to]))
    && t.after.cur.at == t.to
  }

  lemma {:induction false} SignificantFound(ident: Identifies, src: seq<byte>, l: Look)
    requires Ordinary(ident) && src != [] && Startable(src, l) && InSync(src, l)
    ensures Found(ident, src, l.cur.at, Significant(ident, src, l))
    decreases Left(src, l)
  {
    hide Scan, Startable, InSync, Ordinary, Lexeme;
    ScanReached(ident, src, l);
    ScanFound(ident, src, l);
    var t := Scan(ident, src, l);
    if t.kind == COMMA {
      SignificantFound(ident, src, t.after);
    }
  }

  /** The literal tokens but the last are found in any text that has their characters, and none starts with a minus. */
  ghost predicate WellRead(ident: Identifies, ts: seq<Syntax.Token>) {
    && TokensOk(ts)
    && forall i | 0 <= i < |ts| - 1 :: ts[i].Lit? ==> Lexical(ident, ts[i])
  }

  lemma TokenIsOk(ident: Identifies, src: seq<byte>, p: nat, t: Token)
    requires Found(ident, src, p, t) && t.kind != EOF
    ensures TokenOf(src, t).Lit? ==> TokenOf(src, t).text != "" && TokenOf(src, t).text[0] != '-'
    ensures IsEmptyLiteral(src, t.kind, t.from, t.to) ==> TokenOf(src, t) == Syntax.Lit(StringLit, "\"\"")
    ensures TokenOf(src, t).Lit? && InSync(src, t.after) && t.to < |src| ==> Lexical(ident, TokenOf(src, t))
  {
    hide InSync, Lexeme;
    var text := src[t.from..t.to];
    assert text[0] == src[t.from];
    BytesOfChars(text);
  }

  lemma {:induction false} StreamWellRead(ident: Identifies, src: seq<byte>, l: Look)
    requires Ordinary(ident) && src != [] && Startable(src, l) && InSync(src, l)
    requires Syntax.Lit(StringLit, "\"\"") !in TokensOf(src, Stream(ident, src, l))
    ensures WellRead(ident, TokensOf(src, Stream(ident, src, l)))
    ensures TokensOf(src, Stream(ident, src, l)) != [] ==> l.cur.at < |src|
    decreases Left(src, l)
  {
    hide Scan, Startable, InSync, Ordinary, Lexical, TokenOf;
    SignificantReached(ident, src, l);
    SignificantFound(ident, src, l);
    var t := Significant(ident, src, l);
    if t.kind != EOF {
      assert Stream(ident, src, l)[1..] == Stream(ident, src, t.after);
      var ts := TokensOf(src, Stream(ident, src, l));
      assert ts[1..] == TokensOf(src, Stream(ident, src, t.after));
      assert ts[0] == TokenOf(src, t) && ts[0] in ts;
      TokenIsOk(ident, src, l.cur.at, t);
      assert InSync(src, t.after);
      StreamWellRead(ident, src, t.after);
    }
  }

  lemma LexedWellRead(ident: Identifies, src: seq<byte>)
    requires Ordinary(ident) && NoEmptyLiteral(ident, src)
    ensures WellRead(ident, Lexed(ident, src))
  {
    hide Startable, InSync, Ordinary, Stream, First, WellRead;
    if src != [] {
      FirstIsStartable(src);
      assert Syntax.Lit(StringLit, "\"\"") !in Lexed(ident, src);
      StreamWellRead(ident, src, First(src));
    } else {
      NothingRead(ident);
    }
  }

  lemma NothingRead(ident: Identifies)
    ensures WellRead(ident, [])
  {
  }

  // ----- the words of the grammar -----

  predicate LowerCase(c: int) {
    'a' as int <= c <= 'z' as int
  }

  lemma {:induction false} WordScanned(ident: Identifies, src: seq<byte>, l: Look, i: nat, end: nat)
    requires Ordinary(ident) && InSync(src, l) && l.cur.at <= end < |src| && !NameChar(src[end]) && src[end] < RUNE_SELF
    requires forall k | l.cur.at <= k < end :: LowerCase(src[k])
    ensures IdentBody(ident, src, l, i).cur.at == end && InSync(src, IdentBody(ident, src, l, i))
    decreases Left(src, l)
  {
    hide InSync, Next;
    AsciiLook(src, l);
    if l.cur.at < end {
      WalkedNext(src, l);
      WalkedForward(src, l, Next(src, l));
      WordScanned(ident, src, Next(src, l), i + 1, end);
    }
  }

  lemma WordAtStart(ident: Identifies, src: seq<byte>, n: nat)
    requires Ordinary(ident) && 0 < n < |src| && (forall k | 0 <= k < n :: LowerCase(src[k])) && src[n] == COMMA
    ensures FoundAt(ident, src, First(src), IDENT, src[..n])
  {
    hide InSync, Next, IdentBody, First, Startable;
    FirstCharacter(src);
    var l := First(src);
    AsciiLook(src, l);
    WalkedNext(src, l);
    WalkedForward(src, l, Next(src, l));
    WordScanned(ident, src, Next(src, l), 1, n);
    assert ident(l.ch, 0);
    assert src[0..n] == src[..n];
  }

  lemma WordIsLexeme(ident: Identifies, word: string)
    requires Ordinary(ident) && word != "" && forall k | 0 <= k < |word| :: LowerCase(word[k] as int)
    ensures Lexical(ident, Syntax.Lit(IdentLit, word))
  {
    hide Ordinary, FoundAt;
    var src := Bytes(word) + [COMMA];
    assert forall k | 0 <= k < |word| :: src[k] == word[k] as int;
    WordAtStart(ident, src, |word|);
    assert src[..|word|] == Bytes(word);
    assert Chars(Bytes(word)) == word;
  }

  lemma WordsAreLexemes(ident: Identifies, word: string)
    requires Ordinary(ident) && word in Words
    ensures Lexical(ident, Syntax.Lit(IdentLit, word))
  {
    hide Lexical;
    if word == "on" || word == "null" || word == "query" {
      WordIsLexeme(ident, word);
    } else if word == "mutation" {
      WordIsLexeme(ident, word);
    } else if word == "subscription" {
      WordIsLexeme(ident, word);
    } else {
      assert word == "fragment";
      WordIsLexeme(ident, word);
    }
  }

  // ----- the tokens printed -----

  lemma SignsAreLexemes(ident: Identifies, c: char)
    requires IsSign(c)
    ensures Lexical(ident, Syntax.Punct(c))
  {
  }

  /** The tokens printed for a document that was read can be read again. */
  lemma PrintedIsLexical(ident: Identifies, ts: seq<Syntax.Token>)
    requires Ordinary(ident) && WellRead(ident, ts) && Syntax.Parse(ts).Some?
    ensures AllLexical(ident, Print(Syntax.Parse(ts).value))
  {
    hide Lexical, TokensOk, Ordinary, Syntax.Parse, Print, Known;
    var doc := Syntax.Parse(ts).value;
    PrintedWasRead(ts);
    forall t | t in Print(doc)
      ensures Lexical(ident, t)
    {
      KnownIsLexical(ident, ts, t);
    }
  }

  lemma KnownIsLexical(ident: Identifies, ts: seq<Syntax.Token>, t: Syntax.Token)
    requires Ordinary(ident) && WellRead(ident, ts) && Known(ts, t) && (ts != [] ==> ts[|ts| - 1] == Syntax.Punct('}'))
    ensures Lexical(ident, t)
  {
    hide Lexical, TokensOk, Ordinary;
    match t
    case Punct(c) => SignsAreLexemes(ident, c);
    case Lit(kind, text) =>
      if t in ts {
        var i :| 0 <= i < |ts| && ts[i] == t;
      } else {
        WordsAreLexemes(ident, text);
      }
  }

  // ----- whole texts -----

  /** What the formatter writes. */
  function Written(doc: Document): seq<byte> {
    Bytes(Text(DocumentParts(doc)))
  }

  lemma FirstIsAscii(doc: Document)
    ensures Text(DocumentParts(doc)) != "" ==> Text(DocumentParts(doc))[0] as int < RUNE_SELF
  {
    hide OperationParts, FragmentParts, Text;
    if doc.operations != [] {
      OperationStarts(doc.operations[0]);
      StartsWithWord(OperationWord(doc.operations[0].op), DocumentParts(doc));
    } else if doc.fragments != [] {
      FragmentStarts(doc.fragments[0]);
      StartsWithWord("fragment", DocumentParts(doc));
    } else {
      NoText();
    }
  }

  lemma OperationStarts(op: Operation)
    ensures OperationParts(op) != [] && OperationParts(op)[0] == Word(OperationWord(op.op))
    ensures OperationWord(op.op) != "" && OperationWord(op.op)[0] as int < RUNE_SELF
  {
    hide DirectivesParts, VariablesParts, SetParts, SpacedName;
  }

  lemma FragmentStarts(f: Fragment)
    ensures FragmentParts(f) != [] && FragmentParts(f)[0] == Word("fragment")
  {
    hide DirectivesParts, SetParts, SpacedName, OptionalName;
  }

  lemma StartsWithWord(word: string, parts: seq<Part>)
    requires parts != [] && parts[0] == Word(word) && word != "" && word[0] as int < RUNE_SELF
    ensures Text(parts) != "" && Text(parts)[0] as int < RUNE_SELF
  {
  }

  /** The document is read as it is laid out: with the indentation in its literals. */
  lemma WrittenIsRead(ident: Identifies, doc: Document)
    requires Ordinary(ident) && AllLexical(ident, Print(doc))
    ensures ReadDocument(ident, Written(doc)) == Syntax.Parse(Print(Laid(doc)))
  {
    hide Ordinary, AllLexical, Text, DocumentParts, Separated, Print, Lexed;
    assert Readable(ident, Print(doc));
    DocumentSpells(ident, doc);
    assert AllLexical(ident, Print(Laid(doc)));
    FirstIsAscii(doc);
    TextRead(ident, DocumentParts(doc));
  }

  /** What is written for a document that was read, is read as that document exactly if it is printable and no
      literal that is indented has a line feed before its last character. */
  lemma TextComesBackIff(ident: Identifies, src: seq<byte>)
    requires Ordinary(ident) && NoEmptyLiteral(ident, src) && ReadDocument(ident, src).Some?
    ensures (var doc := ReadDocument(ident, src).value;
             ReadDocument(ident, Written(doc)) == Some(doc) <==> RoundTrip.Printable(doc) && Flat(doc))
  {
    hide Ordinary, AllLexical, Text, DocumentParts, Print, Lexed, Syntax.Parse, Laid, Flat, NamesKept;
    hide RoundTrip.Printable, RoundTrip.DocumentOk;
    var doc := ReadDocument(ident, src).value;
    LexedWellRead(ident, src);
    PrintedIsLexical(ident, Lexed(ident, src));
    WrittenIsRead(ident, doc);
    ReadIsOk(ident, Lexed(ident, src));
    LaidKeeps(doc);
    ReadableHung(ident, Print(doc));
    LaidIffFlat(doc);
    if RoundTrip.Printable(doc) {
      RoundTrip.PrintedComesBack(doc);
      RoundTrip.PrintedComesBack(Laid(doc));
    } else {
      Unprintable.UnprintableDiffers(Laid(doc));
    }
  }

  lemma ReadIsOk(ident: Identifies, ts: seq<Syntax.Token>)
    requires WellRead(ident, ts) && Syntax.Parse(ts).Some?
    ensures RoundTrip.DocumentOk(Syntax.Parse(ts).value)
  {
    hide TokensOk, Syntax.ParseDocument;
    DocumentIsOk(ts, Document([], []));
  }
}
