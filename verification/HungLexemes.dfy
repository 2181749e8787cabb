/**
 Literals under indentation: with the indentation behind their line feeds they are
 still one token.
 */
module HungLexemes {
  import opened Query
  import opened Utf8
  import opened ScannerSpec
  import opened ScannerPositions
  import opened ScannerRuns
  import opened ScannerLocality
  import opened TokenStream
  import opened Reading
  import opened Indentation
  import opened TextScan
  import opened PrintedText
  import Syntax

  // ----- names and numbers -----

  lemma PlainToken(ident: Identifies, src: seq<byte>, l: Look)
    requires Ordinary(ident) && InSync(src, l)
    requires TokenAt(ident, src, l).0 == IDENT || TokenAt(ident, src, l).0 == INT || TokenAt(ident, src, l).0 == FLOAT
    ensures Plain(src, l, TokenAt(ident, src, l).1)
  {
    hide Next, InSync, Plain, IdentBody, NumberToken, StringBody, BlockBody;
    var l2 := Next(src, l);
    PlainNext(src, l);
    if ident(l.ch, 0) {
      PlainIdent(ident, src, l2, 1);
      PlainOn(src, l, TokenAt(ident, src, l).1);
    } else if IsDecimal(l.ch) {
      PlainNumber(src, l.cur.at, l, false);
    } else {
      PlainNumber(src, l.cur.at, l2, true);
      PlainOn(src, l, TokenAt(ident, src, l).1);
    }
  }

  lemma PlainLexeme(ident: Identifies, kind: int, text: seq<byte>)
    requires Ordinary(ident) && Lexeme(ident, kind, text) && (kind == IDENT || kind == INT || kind == FLOAT)
    ensures 10 !in text
  {
    hide InSync, TokenAt, Walked;
    var src, l :| FoundAt(ident, src, l, kind, text);
    PlainToken(ident, src, l);
    var p, e := l.cur.at, TokenAt(ident, src, l).1.cur.at;
    forall k | 0 <= k < |text|
      ensures text[k] != 10
    {
      assert text[k] == src[p..e][k] == src[p + k];
    }
  }

  // ----- bytes under indentation -----

  /** A comma ends any token. */
  function BeforeComma(b: seq<byte>): seq<byte> {
    b + [COMMA]
  }

  function HangBytes(b: seq<byte>): seq<byte> {
    if b == [] then [] else [b[0]] + (if b[0] == 10 then [32, 32] else []) + HangBytes(b[1..])
  }

  predicate InBytes(s: string) {
    forall i | 0 <= i < |s| :: s[i] as int < 256
  }

  lemma {:induction false} BytesHung(s: string)
    requires InBytes(s)
    ensures Bytes(Hang(s, INDENT)) == HangBytes(Bytes(s)) && InBytes(Hang(s, INDENT))
  {
    if s != "" {
      var rest := s[1..];
      BytesHung(rest);
      var feed := if s[0] == '\n' then INDENT else "";
      assert s[0] as int < 256;
      BytesJoined([s[0]] + feed, Hang(rest, INDENT));
      BytesJoined([s[0]], feed);
      assert Bytes(s)[1..] == Bytes(rest);
      assert Bytes(INDENT) == [32, 32];
    }
  }

  lemma {:induction false} HangPlain(p: seq<byte>, y: seq<byte>)
    requires 10 !in p
    ensures HangBytes(p + y) == p + HangBytes(y)
  {
    if p == [] {
      assert p + y == y;
    } else {
      assert (p + y)[1..] == p[1..] + y;
      HangPlain(p[1..], y);
    }
  }

  // ----- block strings -----

  /** A character is decoded alike before and after indentation. */
  lemma SameDecode(x: seq<byte>, k: nat, one: seq<byte>, two: seq<byte>)
    requires 1 <= k < |x| && x[0] != 10 && (forall i | 1 <= i < k :: x[i] >= RUNE_SELF) && x[|x| - 1] < RUNE_SELF
    ensures DecodeRune(x + one) == DecodeRune(HangBytes(x) + two)
    decreases |x| - k
  {
    hide DecodeRune;
    if x[k] < RUNE_SELF {
      var p, y := x[..k], x[k..];
      assert x == p + y;
      forall i | 0 <= i < k
        ensures p[i] != 10
      {
      }
      HangPlain(p, y);
      assert HangBytes(y)[0] == y[0];
      assert p < x + one && (x + one)[k] == x[k];
      assert p < HangBytes(x) + two && (HangBytes(x) + two)[k] == x[k];
      AsciiCompletesNothing(p, x + one);
      AsciiCompletesNothing(p, HangBytes(x) + two);
    } else {
      SameDecode(x, k + 1, one, two);
    }
  }

  /** What remains of a block string, up to its last quote, is indented in the other source. */
  ghost predicate Indents(src: seq<byte>, l: Look, end: nat, two: seq<byte>, m: Look) {
    && InSync(src, l) && InSync(two, m) && l.ch >= 0 && m.ch >= 0
    && Next(src, l).cur.at <= end < |src| && src[end] == '"' as int && Next(two, m).cur.at <= |two|
    && two[Next(two, m).cur.at..] == BeforeComma(HangBytes(src[Next(src, l).cur.at..end + 1]))
  }

  lemma IndentsBoth(src: seq<byte>, l: Look, end: nat, two: seq<byte>, m: Look)
    requires Indents(src, l, end, two, m)
    ensures (var l2, m2 := Next(src, l), Next(two, m);
             && InSync(src, l2) && InSync(two, m2) && l2.ch >= 0 && l2.cur.at <= end < |src| && m2.cur.at < |two|
             && l2.cur.width > 0 && l2.cur.at + l2.cur.width <= |src| && src[end] == '"' as int
             && two[m2.cur.at..] == BeforeComma(HangBytes(src[l2.cur.at..end + 1])))
  {
    WalkedNext(src, l);
    WalkedNext(two, m);
    WithinSource(src, Next(src, l));
    hide Next, InSync, HangBytes;
  }

  lemma IndentsNow(src: seq<byte>, l: Look, end: nat, two: seq<byte>, m: Look, p: nat, q: nat)
    requires InSync(src, l) && InSync(two, m) && l.ch >= 0 && m.ch >= 0
    requires Next(src, l).cur.at == p <= end < |src| && src[end] == '"' as int && Next(two, m).cur.at == q <= |two|
    requires two[q..] == BeforeComma(HangBytes(src[p..end + 1]))
    ensures Indents(src, l, end, two, m)
  {
  }

  /** A line feed is followed by the indentation. */
  lemma PastFeed(src: seq<byte>, l: Look, end: nat, two: seq<byte>, m: Look)
    requires Indents(src, l, end, two, m) && Next(src, l).ch == 10 && Next(src, l).cur.at < end
    ensures (var m2 := Next(two, m);
             var m3 := Next(two, m2);
             var m4 := Next(two, m3);
             m2.ch == 10 && m3.ch == 32 && m4.ch == 32 && Indents(src, Next(src, l), end, two, m4))
  {
    hide Next, InSync, HangBytes, BeforeComma, Indents, Walked;
    IndentsBoth(src, l, end, two, m);
    var l2, m2 := Next(src, l), Next(two, m);
    AsciiIs(src, l2);
    WalkedNext(src, l2);
    var p := l2.cur.at;
    FeedFollows(src, p, end);
    SpacesFollow(two, m2, BeforeComma(HangBytes(src[p + 1..end + 1])));
    var m4 := Next(two, Next(two, m2));
    IndentsNow(src, l2, end, two, m4, p + 1, Next(two, m4).cur.at);
  }

  lemma FeedFollows(src: seq<byte>, p: nat, end: nat)
    requires p < end < |src| && src[p] == 10
    ensures BeforeComma(HangBytes(src[p..end + 1])) == [10, 32, 32] + BeforeComma(HangBytes(src[p + 1..end + 1]))
  {
    var x, y := src[p..end + 1], src[p + 1..end + 1];
    assert x[0] == 10 && x[1..] == y;
    assert HangBytes(x) == [10] + [32, 32] + HangBytes(y);
  }

  lemma SpacesFollow(two: seq<byte>, m: Look, rest: seq<byte>)
    requires InSync(two, m) && m.cur.at <= |two| && two[m.cur.at..] == [10, 32, 32] + rest
    ensures (var m3 := Next(two, m);
             var m4 := Next(two, m3);
             && m.ch == 10 && m3.ch == 32 && m4.ch == 32 && InSync(two, m4)
             && Next(two, m4).cur.at <= |two| && two[Next(two, m4).cur.at..] == rest)
  {
    hide Next, InSync;
    assert [10, 32, 32] + rest == [10] + ([32] + ([32] + rest));
    BytesFollow(two, m, 10, [32] + ([32] + rest));
    BytesFollow(two, Next(two, m), 32, [32] + rest);
    BytesFollow(two, Next(two, Next(two, m)), 32, rest);
  }

  lemma AsciiIs(src: seq<byte>, l: Look)
    requires InSync(src, l) && 0 <= l.ch < RUNE_SELF
    ensures l.cur.width == 1 && l.cur.at < |src| && src[l.cur.at] == l.ch
  {
    AsciiIsItself(src[l.cur.at..]);
  }

  /** An ASCII character and what comes after it. */
  lemma BytesFollow(src: seq<byte>, l: Look, c: byte, rest: seq<byte>)
    requires InSync(src, l) && l.cur.at <= |src| && src[l.cur.at..] == [c] + rest && c < RUNE_SELF
    ensures l.ch == c && l.cur.width == 1 && InSync(src, Next(src, l)) && Next(src, l).cur.at == l.cur.at + 1 <= |src|
    ensures src[Next(src, l).cur.at..] == rest
  {
    assert src[l.cur.at] == src[l.cur.at..][0];
    AsciiLook(src, l);
    WalkedNext(src, l);
    assert src[l.cur.at + 1..] == src[l.cur.at..][1..];
  }

  /** Any other character is the same. */
  lemma SameIndented(src: seq<byte>, l: Look, end: nat, two: seq<byte>, m: Look)
    requires Indents(src, l, end, two, m) && Next(src, l).ch != 10 && Next(src, l).cur.at < end
    ensures Next(two, m).ch == Next(src, l).ch && Next(two, m).cur.width == Next(src, l).cur.width
  {
    IndentsBoth(src, l, end, two, m);
    hide Next, InSync, HangBytes;
    var l2, m2 := Next(src, l), Next(two, m);
    var p := l2.cur.at;
    var x := src[p..end + 1];
    CharacterBytes(src, l2);
    assert src[p..] == x + src[end + 1..];
    assert x[0] == src[p] && x[|x| - 1] == '"' as int;
    SameDecode(x, 1, src[end + 1..], [COMMA]);
    SameLook(src, l2, two, m2);
  }

  /** And it is followed by what it was followed by, indented. */
  lemma PastCharacter(src: seq<byte>, l: Look, end: nat, two: seq<byte>, m: Look)
    requires Indents(src, l, end, two, m) && Next(src, l).ch != 10 && Next(src, l).cur.at < end
    requires Next(src, l).cur.at + Next(src, l).cur.width <= end
    ensures Next(two, m).ch == Next(src, l).ch && Indents(src, Next(src, l), end, two, Next(two, m))
  {
    hide Next, InSync, HangBytes, BeforeComma, Indents, Walked;
    IndentsBoth(src, l, end, two, m);
    SameIndented(src, l, end, two, m);
    var l2, m2 := Next(src, l), Next(two, m);
    var p, w, q := l2.cur.at, l2.cur.width, m2.cur.at;
    CharacterBytes(src, l2);
    WalkedNext(src, l2);
    WalkedNext(two, m2);
    BytesGoOn(src, p, w, end, two, q);
    IndentsNow(src, l2, end, two, m2, p + w, q + w);
  }

  lemma BytesGoOn(src: seq<byte>, p: nat, w: nat, end: nat, two: seq<byte>, q: nat)
    requires p + w <= end < |src| && 10 !in src[p..p + w]
    requires q <= |two| && two[q..] == BeforeComma(HangBytes(src[p..end + 1]))
    ensures q + w <= |two| && two[q + w..] == BeforeComma(HangBytes(src[p + w..end + 1]))
  {
    hide HangBytes;
    var head, tail := src[p..p + w], src[p + w..end + 1];
    assert src[p..end + 1] == head + tail;
    HangPlain(head, tail);
    assert BeforeComma(head + HangBytes(tail)) == head + BeforeComma(HangBytes(tail));
    BytesAfter(two, q, head, BeforeComma(HangBytes(tail)));
  }

  lemma BytesAfter(two: seq<byte>, q: nat, head: seq<byte>, tail: seq<byte>)
    requires q <= |two| && two[q..] == head + tail
    ensures q + |head| <= |two| && two[q + |head|..] == tail
  {
    assert two[q..][|head|..] == two[q + |head|..];
  }

  lemma CharacterBytes(src: seq<byte>, l: Look)
    requires InSync(src, l) && l.ch != 10 && l.cur.width > 0
    ensures l.cur.at + l.cur.width <= |src| && src[l.cur.at] != 10 && 10 !in src[l.cur.at..l.cur.at + l.cur.width]
  {
    AsciiIsItself(src[l.cur.at..]);
  }

  lemma SameLook(src: seq<byte>, l: Look, two: seq<byte>, m: Look)
    requires InSync(src, l) && InSync(two, m) && l.cur.at < |src| && m.cur.at < |two|
    requires DecodeRune(src[l.cur.at..]) == DecodeRune(two[m.cur.at..])
    ensures l.ch == m.ch && l.cur.width == m.cur.width
  {
    hide DecodeRune;
  }

  /** The next character of a block string, and the quotes in a row with it. */
  lemma BlockGoesOn(src: seq<byte>, l: Look, q: nat)
    requires Next(src, l).ch >= 0 && (Next(src, l).ch == '"' as int ==> q != 2)
    ensures BlockBody(src, l, q) == BlockBody(src, Next(src, l), if Next(src, l).ch == '"' as int then q + 1 else 0)
  {
  }

  lemma BlockStops(src: seq<byte>, l: Look)
    requires Next(src, l).ch == '"' as int
    ensures BlockBody(src, l, 2) == Next(src, l)
  {
  }

  lemma {:induction false} BlockIndented(src: seq<byte>, l: Look, q: nat, end: nat, two: seq<byte>, m: Look)
    requires Indents(src, l, end, two, m) && q <= 2
    requires BlockBody(src, l, q).cur.at == end && BlockBody(src, l, q).ch == '"' as int
    ensures (var r := BlockBody(two, m, q); InSync(two, r) && r.ch == '"' as int && r.cur.at + 2 == |two|)
    decreases Rest(src, l)
  {
    hide Next, InSync, Indents, HangBytes, Walked, BlockBody;
    IndentsBoth(src, l, end, two, m);
    var l2, m2 := Next(src, l), Next(two, m);
    if l2.ch == '"' as int && q == 2 {
      BlockStops(src, l);
      LastQuote(src, l, end, two, m);
      BlockStops(two, m);
    } else {
      var q2 := if l2.ch == '"' as int then q + 1 else 0;
      BlockGoesOn(src, l, q);
      WalkedBlock(src, l2, q2);
      WalkedNext(src, l2);
      WalkedForward(src, l2, Next(src, l2));
      WalkedForward(src, Next(src, l2), BlockBody(src, l2, q2));
      if l2.ch == 10 {
        PastFeed(src, l, end, two, m);
        BlockGoesOn(two, m, q);
        BlockGoesOn(two, m2, 0);
        BlockGoesOn(two, Next(two, m2), 0);
        BlockIndented(src, l2, 0, end, two, Next(two, Next(two, m2)));
      } else {
        PastCharacter(src, l, end, two, m);
        BlockGoesOn(two, m, q);
        BlockIndented(src, l2, q2, end, two, m2);
      }
    }
  }

  lemma LastQuote(src: seq<byte>, l: Look, end: nat, two: seq<byte>, m: Look)
    requires Indents(src, l, end, two, m) && Next(src, l).cur.at == end
    ensures (var m2 := Next(two, m); InSync(two, m2) && m2.ch == '"' as int && m2.cur.at + 2 == |two|)
  {
    IndentsBoth(src, l, end, two, m);
    hide Next, InSync;
    var m2 := Next(two, m);
    assert src[end..end + 1] == ['"' as int];
    assert HangBytes(['"' as int]) == ['"' as int];
    assert two[m2.cur.at..] == ['"' as int] + [COMMA];
    BytesFollow(two, m2, '"' as int, [COMMA]);
  }

  /** Strings start with a quote. */
  lemma QuotedFound(ident: Identifies, src: seq<byte>, l: Look, kind: int, text: seq<byte>)
    requires FoundAt(ident, src, l, kind, text) && (kind == STRING || kind == BLOCK_STRING)
    ensures l.ch == '"' as int && QuotedToken(src, l) == TokenAt(ident, src, l) && InSync(src, l)
  {
    hide Next, InSync, IdentBody, NumberToken, QuotedToken;
    NumberKind(src, l.cur.at, l, false);
    NumberKind(src, l.cur.at, Next(src, l), true);
  }

  /** The quotes a block string starts with, and its last quote. */
  lemma BlockFound(src: seq<byte>, l: Look)
    requires InSync(src, l) && l.ch == '"' as int
    requires QuotedToken(src, l).0 == BLOCK_STRING && QuotedToken(src, l).1.cur.at < |src|
    ensures (var l2 := Next(src, l);
             var l3 := Next(src, l2);
             var body := BlockBody(src, l3, 0);
             && InSync(src, l3) && l3.ch == '"' as int && l3.cur.at == l.cur.at + 2
             && Next(src, l3).cur.at == l.cur.at + 3
             && src[l.cur.at] == src[l.cur.at + 1] == src[l.cur.at + 2] == '"' as int
             && body.ch == '"' as int && l.cur.at + 3 <= body.cur.at < |src| && src[body.cur.at] == '"' as int
             && QuotedToken(src, l).1.cur.at == body.cur.at + 1)
  {
    hide InSync, Walked, Step;
    var l2 := Next(src, l);
    WalkedNext(src, l);
    WalkedForward(src, l, l2);
    QuoteAt(src, l);
    QuoteAt(src, l2);
    var l3 := Next(src, l2);
    WalkedNext(src, l2);
    WalkedForward(src, l2, l3);
    QuoteAt(src, l3);
    WalkedNext(src, l3);
    var body := BlockBody(src, l3, 0);
    WalkedBlock(src, l3, 0);
    WalkedForward(src, Next(src, l3), body);
    WithinSource(src, body);
    WalkedNext(src, body);
    EndsQuoted(src, l3, 0);
    QuoteAt(src, body);
  }

  lemma {:induction false} EndsQuoted(src: seq<byte>, l: Look, q: nat)
    requires BlockBody(src, l, q).ch >= 0
    ensures BlockBody(src, l, q).ch == '"' as int
    decreases Rest(src, l)
  {
    var l2 := Next(src, l);
    if l2.ch >= 0 {
      if l2.ch != '"' as int {
        EndsQuoted(src, l2, 0);
      } else if q != 2 {
        EndsQuoted(src, l2, q + 1);
      }
    }
  }

  function Quoted(rest: seq<byte>): seq<byte> {
    ['"' as int, '"' as int, '"' as int] + rest
  }

  /** A source of three quotes and more. */
  lemma ThreeQuotes(two: seq<byte>, rest: seq<byte>)
    requires two == Quoted(rest)
    ensures (var m := First(two);
             var m2 := Next(two, m);
             var m3 := Next(two, m2);
             && InSync(two, m) && m.cur.at == 0 && m.ch == m2.ch == m3.ch == '"' as int && InSync(two, m3)
             && Next(two, m3).cur.at == 3 <= |two| && two[3..] == rest)
  {
    hide InSync, Next, First, Startable;
    var quote := ['"' as int];
    FirstCharacter(two);
    var m := First(two);
    assert two[0..] == quote + (quote + (quote + rest));
    BytesFollow(two, m, '"' as int, quote + (quote + rest));
    BytesFollow(two, Next(two, m), '"' as int, quote + rest);
    BytesFollow(two, Next(two, Next(two, m)), '"' as int, rest);
  }

  lemma BlockHung(ident: Identifies, text: seq<byte>)
    requires Ordinary(ident) && Lexeme(ident, BLOCK_STRING, text)
    ensures Lexeme(ident, BLOCK_STRING, HangBytes(text)) && text != [] && text[|text| - 1] != 10
  {
    hide InSync, Next, First, Ordinary, HangBytes, BlockBody, QuotedToken, TokenAt, Indents;
    var src, l :| FoundAt(ident, src, l, BLOCK_STRING, text);
    BlockOf(ident, src, l, text);
    var l3 := Next(src, Next(src, l));
    var two := BeforeComma(HangBytes(text));
    BlockIndented(src, l3, 0, BlockBody(src, l3, 0).cur.at, two, Next(two, Next(two, First(two))));
    BlockIsFound(ident, HangBytes(text));
  }

  lemma BlockOf(ident: Identifies, src: seq<byte>, l: Look, text: seq<byte>)
    requires FoundAt(ident, src, l, BLOCK_STRING, text)
    ensures (var l3 := Next(src, Next(src, l));
             var two := BeforeComma(HangBytes(text));
             var m := First(two);
             var m2 := Next(two, m);
             && Indents(src, l3, BlockBody(src, l3, 0).cur.at, two, Next(two, m2))
             && BlockBody(src, l3, 0).ch == '"' as int
             && InSync(two, m) && m.cur.at == 0 && m.ch == m2.ch == Next(two, m2).ch == '"' as int)
    ensures text != [] && text[|text| - 1] != 10
  {
    hide InSync, Next, First, HangBytes, BlockBody, QuotedToken, TokenAt, Quoted, BeforeComma;
    QuotedFound(ident, src, l, BLOCK_STRING, text);
    BlockFound(src, l);
    var p, end := l.cur.at, BlockBody(src, Next(src, Next(src, l)), 0).cur.at;
    assert text == src[p..end + 1];
    BlockText(src, p, end, text);
    var two := BeforeComma(HangBytes(text));
    ThreeQuotes(two, BeforeComma(HangBytes(src[p + 3..end + 1])));
  }

  lemma BlockText(src: seq<byte>, p: nat, end: nat, text: seq<byte>)
    requires p + 3 <= end < |src| && src[p] == src[p + 1] == src[p + 2] == src[end] == '"' as int &&
             text == src[p..end + 1]
    ensures text != [] && text[|text| - 1] != 10
    ensures BeforeComma(HangBytes(text)) == Quoted(BeforeComma(HangBytes(src[p + 3..end + 1])))
  {
    hide HangBytes, BeforeComma, Quoted;
    assert text[|text| - 1] == src[end];
    QuotesHung(text, src[p + 3..end + 1]);
  }

  lemma QuotesHung(text: seq<byte>, x: seq<byte>)
    requires |text| == |x| + 3 && text[0] == text[1] == text[2] == '"' as int && text[3..] == x
    ensures BeforeComma(HangBytes(text)) == Quoted(BeforeComma(HangBytes(x)))
  {
    hide HangBytes;
    var three := Quoted([]);
    assert text == three + x;
    HangPlain(three, x);
    QuotedFirst(HangBytes(x));
  }

  lemma QuotedFirst(x: seq<byte>)
    ensures BeforeComma(Quoted([]) + x) == Quoted(BeforeComma(x))
  {
  }

  lemma BlockIsFound(ident: Identifies, text: seq<byte>)
    requires Ordinary(ident)
    requires (var two := BeforeComma(text);
              var m := First(two);
              var m2 := Next(two, m);
              var body := BlockBody(two, Next(two, m2), 0);
              && InSync(two, m) && m.cur.at == 0 && m.ch == m2.ch == Next(two, m2).ch == '"' as int
              && InSync(two, body) && body.ch == '"' as int && body.cur.at + 2 == |two|)
    ensures Lexeme(ident, BLOCK_STRING, text)
  {
    hide InSync, Next, First, Ordinary, BlockBody;
    var two := BeforeComma(text);
    var m := First(two);
    var body := BlockBody(two, Next(two, Next(two, m)), 0);
    WalkedNext(two, body);
    QuoteAt(two, body);
    NoName(ident, '"' as int);
    assert two[0..|two| - 1] == text;
    assert TokenAt(ident, two, m) == (BLOCK_STRING, Next(two, body));
    assert FoundAt(ident, two, m, BLOCK_STRING, text);
  }

  lemma NoName(ident: Identifies, ch: int)
    requires Ordinary(ident) && 0 <= ch < RUNE_SELF && !NameChar(ch)
    ensures !ident(ch, 0)
  {
  }

  // ----- strings -----

  /** A string that is not empty: its first character is passed over, up to its end it is on one line. */
  lemma StringFound(src: seq<byte>, l: Look)
    requires InSync(src, l) && l.ch == '"' as int && QuotedToken(src, l).0 == STRING
    requires InSync(src, QuotedToken(src, l).1) && QuotedToken(src, l).1.cur.at < |src|
    ensures (var l2 := Next(src, l);
             var l3 := Next(src, l2);
             var body := StringBody(src, l3);
             && InSync(src, l2) && InSync(src, l3) && l2.cur.at == l.cur.at + 1 && l2.ch >= 0 && l2.ch != '"' as int
             && l3.cur.at == l2.cur.at + l2.cur.width && Plain(src, l3, body) && body.ch >= 0
             && body.cur.at + 1 == QuotedToken(src, l).1.cur.at && QuotedToken(src, l).1 == Next(src, body))
  {
    hide InSync, Plain, Step, StringBody, BlockBody;
    var l2 := Next(src, l);
    WalkedNext(src, l);
    WalkedForward(src, l, l2);
    QuoteAt(src, l);
    var l3 := Next(src, l2);
    WalkedNext(src, l2);
    WalkedForward(src, l2, l3);
    if l2.ch == '"' as int {
      LeftOver(src, l3, l.ch);
    } else {
      var body := StringBody(src, l3);
      PlainString(src, l3);
      PlainForward(src, l3, body);
      WalkedNext(src, body);
      WithinSource(src, body);
      WithinSource(src, l2);
      StringStops(src, l3);
      AsciiIs(src, body);
    }
  }

  lemma {:induction false} StringStops(src: seq<byte>, l: Look)
    ensures StringBody(src, l).ch < RUNE_SELF
    decreases Left(src, l)
  {
    hide Next, Escape;
    if l.ch != '"' as int && l.ch != 10 && l.ch >= 0 {
      if l.ch == '\\' as int {
        EscapeLeft(src, l);
        StringStops(src, Escape(src, l));
      } else {
        StringStops(src, Next(src, l));
      }
    }
  }

  /** A line feed right after the opening quote is the only one before the last character. */
  lemma StringFeeds(src: seq<byte>, l: Look, end: nat)
    requires InSync(src, l) && l.ch == '"' as int && QuotedToken(src, l).0 == STRING
    requires InSync(src, QuotedToken(src, l).1) && QuotedToken(src, l).1.cur.at == end < |src|
    ensures l.cur.at + 2 < end && src[l.cur.at] == '"' as int
    ensures forall k | l.cur.at <= k < end - 1 :: src[k] == 10 ==> k == l.cur.at + 1 && Next(src, l).ch == 10
    ensures Next(src, l).ch == 10 ==> src[l.cur.at + 1] == 10 && Next(src, l).cur.width == 1
  {
    hide InSync, Next, StringBody, QuotedToken, Walked;
    StringFound(src, l);
    QuoteAt(src, l);
    var l2 := Next(src, l);
    WithinSource(src, l2);
    PlainForward(src, Next(src, l2), StringBody(src, Next(src, l2)));
    if l2.ch == 10 {
      AsciiIs(src, l2);
    } else {
      CharacterBytes(src, l2);
      forall k | l2.cur.at <= k < l2.cur.at + l2.cur.width
        ensures src[k] != 10
      {
        assert src[k] == src[l2.cur.at..l2.cur.at + l2.cur.width][k - l2.cur.at];
      }
    }
  }

  function FeedFirst(rest: seq<byte>): seq<byte> {
    ['"' as int, 10] + rest
  }

  function FeedAndSpaces(rest: seq<byte>): seq<byte> {
    ['"' as int, 10, 32, 32] + rest
  }

  /** A source of a quote, a line feed, two spaces and more. */
  lemma QuoteAndFeed(two: seq<byte>, rest: seq<byte>)
    requires two == FeedAndSpaces(rest)
    ensures (var m := First(two);
             var m2 := Next(two, m);
             var m3 := Next(two, m2);
             var m5 := Next(two, Next(two, m3));
             && InSync(two, m) && m.cur.at == 0 && m.ch == '"' as int && m2.ch == 10
             && StringBody(two, m3) == StringBody(two, m5) && InSync(two, m5) && m5.cur.at == 4 && two[4..] == rest)
  {
    hide InSync, Next, First, Startable;
    FirstCharacter(two);
    var m := First(two);
    assert two[0..] == ['"' as int] + ([10] + ([32] + ([32] + rest)));
    BytesFollow(two, m, '"' as int, [10] + ([32] + ([32] + rest)));
    var m2 := Next(two, m);
    BytesFollow(two, m2, 10, [32] + ([32] + rest));
    var m3 := Next(two, m2);
    BytesFollow(two, m3, 32, [32] + rest);
    var m4 := Next(two, m3);
    BytesFollow(two, m4, 32, rest);
  }

  /** With the indentation in it, such a string is still one token. */
  lemma FeedHung(ident: Identifies, src: seq<byte>, l: Look, rest: seq<byte>)
    requires Ordinary(ident) && FoundAt(ident, src, l, STRING, FeedFirst(rest))
    ensures Lexeme(ident, STRING, FeedAndSpaces(rest))
  {
    hide InSync, Next, First, Ordinary, StringBody, QuotedToken, TokenAt, Plain, Walked, EndsToken, FeedAndSpaces;
    QuotedFound(ident, src, l, STRING, FeedFirst(rest));
    var end := QuotedToken(src, l).1.cur.at;
    StringFound(src, l);
    StringFeeds(src, l, end);
    var l3 := Next(src, Next(src, l));
    assert src[l.cur.at..end][1] == src[l.cur.at + 1];
    assert FeedFirst(rest)[2..] == src[l3.cur.at..end];
    var two := BeforeComma(FeedAndSpaces(rest));
    SpacesBefore(rest);
    QuoteAndFeed(two, BeforeComma(rest));
    var m5 := Next(two, Next(two, Next(two, Next(two, First(two)))));
    TailCopied(src, l3.cur.at, end, rest, two);
    StringSame(Copy(src, l3.cur.at, two, 4, |rest|), l3, m5);
    StringIsFound(ident, FeedAndSpaces(rest));
  }

  lemma SpacesBefore(rest: seq<byte>)
    ensures BeforeComma(FeedAndSpaces(rest)) == FeedAndSpaces(BeforeComma(rest)) && |FeedAndSpaces(rest)| == |rest| + 4
  {
  }

  lemma TailCopied(src: seq<byte>, p: nat, end: nat, rest: seq<byte>, two: seq<byte>)
    requires p <= end <= |src| && src[p..end] == rest && two == BeforeComma(FeedAndSpaces(rest))
    ensures Copy(src, p, two, 4, |rest|).Valid()
  {
    assert two[4..4 + |rest|] == rest;
  }

  lemma StringSame(c: Copy, l: Look, m: Look)
    requires c.Valid() && InSync(c.one, l) && InSync(c.two, m) && l.cur.at == c.a && m.cur.at == c.b
    requires Plain(c.one, l, StringBody(c.one, l)) && StringBody(c.one, l).ch >= 0
    requires Next(c.one, StringBody(c.one, l)).cur.at == c.a + c.n && StringBody(c.one, l).cur.at < c.a + c.n
    ensures (var r := Next(c.two, StringBody(c.two, m)); InSync(c.two, r) && r.cur.at == c.b + c.n)
  {
    hide InSync, StringBody, Plain, Next, Walked, Copy.Paired;
    var body := StringBody(c.one, l);
    PlainForward(c.one, l, body);
    WalkedThen(c.one, l, body);
    PairedAtFirst(c, l, m, Next(c.one, body));
    SameString(c, l, m);
    PairedNext(c, body, StringBody(c.two, m));
    PairedWithin(c, Next(c.one, body), Next(c.two, StringBody(c.two, m)));
  }

  lemma StringIsFound(ident: Identifies, text: seq<byte>)
    requires Ordinary(ident)
    requires (var two := BeforeComma(text);
              var m := First(two);
              var m2 := Next(two, m);
              var r := Next(two, StringBody(two, Next(two, m2)));
              && InSync(two, m) && m.cur.at == 0 && m.ch == '"' as int && m2.ch == 10
              && InSync(two, r) && 0 < r.cur.at == |text|)
    ensures Lexeme(ident, STRING, text)
  {
    hide InSync, Next, First, Ordinary, StringBody;
    var two := BeforeComma(text);
    NoName(ident, '"' as int);
    assert two[0..|text|] == text;
    assert FoundAt(ident, two, First(two), STRING, text);
  }

  // ----- tokens -----

  function HangTextBytes(b: seq<byte>): seq<byte> {
    if b != [] && b[|b| - 1] == 10 then HangBytes(b[..|b| - 1]) + [10] else HangBytes(b)
  }

  lemma TextHung(s: string)
    requires InBytes(s)
    ensures Bytes(HangText(s)) == HangTextBytes(Bytes(s)) && InBytes(HangText(s))
  {
    if EndsLine(s) {
      var most := s[..|s| - 1];
      BytesHung(most);
      BytesJoined(Hang(most, INDENT), "\n");
      assert Bytes(s)[..|s| - 1] == Bytes(most);
    } else {
      BytesHung(s);
      if s != "" {
        assert s[|s| - 1] as int < 256;
      }
    }
  }

  lemma OneLineHung(b: seq<byte>)
    requires b == [] || 10 !in b[..|b| - 1]
    ensures HangTextBytes(b) == b
  {
    if b != [] {
      var most, last := b[..|b| - 1], b[|b| - 1..];
      assert b == most + last;
      HangPlain(most, last);
      HangPlain(most, []);
      assert most + [] == most && HangBytes([]) == [];
      assert HangBytes(last)[0] == last[0];
    }
  }

  lemma StringHung(ident: Identifies, text: seq<byte>)
    requires Ordinary(ident) && Lexeme(ident, STRING, text)
    ensures Lexeme(ident, STRING, HangTextBytes(text))
  {
    hide InSync, Next, Ordinary, StringBody, QuotedToken, TokenAt, HangTextBytes;
    var src, l :| FoundAt(ident, src, l, STRING, text);
    QuotedFound(ident, src, l, STRING, text);
    var p, end := l.cur.at, QuotedToken(src, l).1.cur.at;
    StringFeeds(src, l, end);
    assert forall k | 0 <= k < |text| :: text[k] == src[p + k];
    if Next(src, l).ch == 10 {
      var rest := text[2..];
      assert text == FeedFirst(rest);
      FeedHung(ident, src, l, rest);
      FeedBytes(rest);
    } else {
      OneLineHung(text);
    }
  }

  lemma FeedHangs(y: seq<byte>)
    ensures HangBytes(FeedFirst(y)) == FeedAndSpaces(HangBytes(y))
  {
    var b := FeedFirst(y);
    assert b[1..] == [10] + y && ([10] + y)[1..] == y;
    assert HangBytes([10] + y) == [10, 32, 32] + HangBytes(y);
  }

  lemma OneLineBytes(b: seq<byte>)
    requires 10 !in b
    ensures HangBytes(b) == b
  {
    HangPlain(b, []);
    assert b + [] == b;
  }

  lemma FeedBytes(rest: seq<byte>)
    requires rest != [] && 10 !in rest[..|rest| - 1]
    ensures HangTextBytes(FeedFirst(rest)) == FeedAndSpaces(rest)
  {
    hide HangBytes;
    var b := FeedFirst(rest);
    var most, last := rest[..|rest| - 1], rest[|rest| - 1];
    assert rest == most + [last];
    if last == 10 {
      assert b[..|b| - 1] == FeedFirst(most);
      FeedHangs(most);
      OneLineBytes(most);
    } else {
      FeedHangs(rest);
      OneLineBytes(rest);
    }
  }

  /** Indentation does not break a token. */
  lemma HungIsLexical(ident: Identifies, t: Syntax.Token)
    requires Ordinary(ident) && Lexical(ident, t)
    ensures Lexical(ident, HangToken(t))
    ensures t.Lit? && t.kind != StringLit && t.kind != BlockStringLit ==> HangToken(t) == t
  {
    hide Lexeme, HangText, HangTextBytes;
    if t.Lit? {
      var b := Bytes(t.text);
      InBytesIf(t.text);
      TextHung(t.text);
      InBytesIf(HangText(t.text));
      match t.kind {
        case StringLit => StringHung(ident, b);
        case BlockStringLit =>
          BlockHung(ident, b);
          BlockBytes(b);
        case IdentLit =>
          PlainLexeme(ident, IDENT, b);
          SameText(t.text);
        case IntLit =>
          PlainLexeme(ident, INT, b);
          SameText(t.text);
        case FloatLit =>
          PlainLexeme(ident, FLOAT, b);
          SameText(t.text);
      }
    }
  }

  lemma BlockBytes(b: seq<byte>)
    requires b != [] && b[|b| - 1] != 10
    ensures HangTextBytes(b) == HangBytes(b)
  {
  }

  lemma InBytesIf(s: string)
    ensures InBytes(s) <==> Chars(Bytes(s)) == s
  {
    assert forall i | 0 <= i < |s| :: Chars(Bytes(s))[i] == (s[i] as int % 256) as char;
  }

  lemma SameText(s: string)
    requires InBytes(s) && 10 !in Bytes(s)
    ensures HangText(s) == s
  {
    forall i | 0 <= i < |s|
      ensures s[i] != '\n'
    {
      assert Bytes(s)[i] == s[i] as int % 256;
    }
    HangNothing(s, INDENT);
  }
}
