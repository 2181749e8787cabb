/**
 The tokens of a source, told from its characters: what lies between two of them,
 the kind each has by its first characters, and how far each reaches.
 */
module TokenKinds {
  import opened Utf8
  import opened ScannerSpec
  import opened ScannerPositions
  import opened ScannerRuns
  import opened ScannerLocality
  import opened NumberTokens

  // ----- characters of the source -----

  /** The character at `p`, or -1 behind the last. */
  function CharAt(src: seq<byte>, p: nat): int {
    if p < |src| then DecodeRune(src[p..]).0 else EOF
  }

  function WidthAt(src: seq<byte>, p: nat): nat {
    if p < |src| then DecodeRune(src[p..]).1 else 0
  }

  lemma SeesChar(src: seq<byte>, l: Look)
    requires InSync(src, l)
    ensures l.cur.at <= |src| && l.ch == CharAt(src, l.cur.at) && l.cur.width == WidthAt(src, l.cur.at)
    ensures l.ch >= 0 <==> l.cur.at < |src|
    ensures l.cur.at < |src| ==> l.cur.width > 0
  {
    if l.cur.at < |src| {
      AsciiIsItself(src[l.cur.at..]);
    }
  }

  // ----- white space and comments -----

  predicate SpaceByte(b: int) {
    b == ' ' as int || b == 9 || b == 10 || b == 13
  }

  /** From `p` to `q` there are only white space and comments, each up to the end of its line. */
  ghost predicate Gap(src: seq<byte>, p: nat, q: nat)
    decreases q - p
  {
    p <= q <= |src| &&
    (p == q
     || (SpaceByte(src[p]) && Gap(src, p + 1, q))
     || (src[p] as int == '#' as int && exists e :: p < e <= q && CommentTo(src, p, e) && Gap(src, e, q)))
  }

  ghost predicate CommentTo(src: seq<byte>, p: nat, e: nat) {
    p < e <= |src| && (forall k :: p <= k < e ==> src[k] != 10) && (e == |src| || src[e] == 10)
  }

  lemma {:induction false} SpaceIsGap(src: seq<byte>, l: Look, q: nat)
    requires InSync(src, l) && Gap(src, SkipSpace(src, l).cur.at, q)
    ensures Gap(src, l.cur.at, q) && InSync(src, SkipSpace(src, l))
    decreases Left(src, l)
  {
    hide InSync, Next;
    SeesByte(src, l);
    if IsSpace(l.ch) {
      PastByte(src, l);
      SpaceIsGap(src, Next(src, l), q);
    }
  }

  lemma {:induction false} SpaceStays(src: seq<byte>, l: Look)
    requires InSync(src, l)
    ensures InSync(src, SkipSpace(src, l)) && l.cur.at <= SkipSpace(src, l).cur.at
    decreases Left(src, l)
  {
    hide InSync, Next;
    SeesByte(src, l);
    if IsSpace(l.ch) {
      PastByte(src, l);
      SpaceStays(src, Next(src, l));
    }
  }

  lemma {:induction false} PlainComment(src: seq<byte>, l: Look)
    requires InSync(src, l)
    ensures Plain(src, l, CommentBody(src, l)) && (CommentBody(src, l).ch == 10 || CommentBody(src, l).ch < 0)
    decreases Left(src, l)
  {
    hide Plain, InSync, Next;
    if l.ch == 10 || l.ch < 0 {
      PlainHere(src, l);
    } else {
      PlainNext(src, l);
      PlainForward(src, l, Next(src, l));
      PlainComment(src, Next(src, l));
      PlainOn(src, l, CommentBody(src, l));
    }
  }

  lemma CommentIsTo(src: seq<byte>, l: Look)
    requires InSync(src, l) && l.ch == '#' as int
    ensures (var r := CommentBody(src, Next(src, l));
             InSync(src, r) && CommentTo(src, l.cur.at, r.cur.at) && Left(src, r) < Left(src, l))
  {
    hide InSync, Next, Walked;
    SeesByte(src, l);
    PastByte(src, l);
    PlainComment(src, Next(src, l));
    PlainForward(src, Next(src, l), CommentBody(src, Next(src, l)));
    SeesByte(src, CommentBody(src, Next(src, l)));
  }

  /** Only white space and comments are passed over, and all of them. */
  lemma {:induction false} SkipIsGap(ident: Identifies, src: seq<byte>, l: Look)
    requires InSync(src, l)
    ensures (var r := Skip(ident, src, l);
             && InSync(src, r) && Gap(src, l.cur.at, r.cur.at) && !SpaceByte(ByteAt(src, r.cur.at))
             && (ByteAt(src, r.cur.at) == '#' as int ==> ident('#' as int, 0)))
    decreases Left(src, l)
  {
    hide InSync, Next, CommentTo;
    var l2, r := SkipSpace(src, l), Skip(ident, src, l);
    SpaceStays(src, l);
    SeesByte(src, l2);
    if l2.ch == '#' as int && !ident(l2.ch, 0) {
      CommentIsTo(src, l2);
      var l3 := CommentBody(src, Next(src, l2));
      SkipIsGap(ident, src, l3);
      CommentThenGap(src, l2.cur.at, l3.cur.at, r.cur.at);
    }
    SpaceIsGap(src, l, r.cur.at);
  }

  lemma CommentThenGap(src: seq<byte>, p: nat, e: nat, q: nat)
    requires CommentTo(src, p, e) && Gap(src, e, q) && src[p] as int == '#' as int
    ensures Gap(src, p, q)
  {
    hide CommentTo;
    GapWithin(src, e, q);
    assert p < e <= q by { CommentWithin(src, p, e); }
  }

  lemma CommentWithin(src: seq<byte>, p: nat, e: nat)
    requires CommentTo(src, p, e)
    ensures p < e <= |src|
  {
  }

  lemma GapWithin(src: seq<byte>, p: nat, q: nat)
    requires Gap(src, p, q)
    ensures p <= q <= |src|
  {
  }

  // ----- names -----

  /** From `p` to `q` there are identifier characters, the first of them being number `i` of the identifier, and no
      more behind them. */
  ghost predicate NameTo(ident: Identifies, src: seq<byte>, p: nat, q: nat, i: nat)
    decreases |src| - p
  {
    p <= q <= |src| &&
    if p == q then p == |src| || !ident(CharAt(src, p), i)
    else WidthAt(src, p) > 0 && ident(CharAt(src, p), i) && NameTo(ident, src, p + WidthAt(src, p), q, i + 1)
  }

  lemma {:induction false} IdentIsName(ident: Identifies, src: seq<byte>, l: Look, i: nat)
    requires InSync(src, l)
    ensures (var r := IdentBody(ident, src, l, i);
             InSync(src, r) && l.cur.at <= r.cur.at && NameTo(ident, src, l.cur.at, r.cur.at, i))
    decreases Left(src, l)
  {
    hide InSync, Next, CharAt, WidthAt;
    SeesChar(src, l);
    if ident(l.ch, i) && l.ch >= 0 {
      WalkedNext(src, l);
      StepInSync(src, l);
      IdentIsName(ident, src, Next(src, l), i + 1);
    }
  }

  lemma StepInSync(src: seq<byte>, l: Look)
    requires InSync(src, l)
    ensures InSync(src, Next(src, l))
  {
    hide Next;
    WalkedNext(src, l);
  }

  // ----- strings -----

  const QUOTE := '"' as int
  const BACKSLASH := '\\' as int

  /** From `p` a string goes on to `q`, where there is a quote or its line ends: a quote or a backslash right after a
      backslash is passed over. */
  ghost predicate BodyTo(src: seq<byte>, p: nat, q: nat)
    decreases |src| - p
  {
    p <= q <= |src| &&
    if p == q then p == |src| || src[p] as int == QUOTE || src[p] == 10
    else if src[p] as int == BACKSLASH && (ByteAt(src, p + 1) == QUOTE || ByteAt(src, p + 1) == BACKSLASH)
    then BodyTo(src, p + 2, q)
    else src[p] as int != QUOTE && src[p] != 10 && WidthAt(src, p) > 0 && BodyTo(src, p + WidthAt(src, p), q)
  }

  lemma {:induction false} BodyEnds(src: seq<byte>, l: Look)
    requires InSync(src, l)
    ensures (var r := StringBody(src, l); InSync(src, r) && BodyTo(src, l.cur.at, r.cur.at))
    decreases Left(src, l)
  {
    hide InSync, Next, Escape, CharAt, WidthAt, StringBody;
    var r := StringBody(src, l);
    SeesByte(src, l);
    SeesChar(src, l);
    BodySteps(src, l);
    PlainString(src, l);
    PlainForward(src, l, r);
    SeesByte(src, r);
    if l.ch == QUOTE || l.ch == 10 || l.ch < 0 {
    } else {
      WalkedNext(src, l);
      StepInSync(src, l);
      var l2 := Next(src, l);
      SeesByte(src, l2);
      if l.ch == BACKSLASH && (l2.ch == QUOTE || l2.ch == BACKSLASH) {
        PastByte(src, l2);
        BodyEnds(src, Next(src, l2));
      } else {
        BodyEnds(src, l2);
      }
    }
  }

  /** A body in small steps, by place. */
  lemma BodySteps(src: seq<byte>, l: Look)
    ensures (var r, l2 := StringBody(src, l), Next(src, l);
             if l.ch == QUOTE || l.ch == 10 || l.ch < 0 then r.cur.at == l.cur.at
             else if l.ch == BACKSLASH && (l2.ch == QUOTE || l2.ch == BACKSLASH)
             then r.cur.at == StringBody(src, Next(src, l2)).cur.at
             else r.cur.at == StringBody(src, l2).cur.at)
  {
    hide Next, EscapeDigits;
    var l2 := Next(src, l);
    if l.ch == BACKSLASH {
      EscapeLeft(src, l);
      if l2.ch == QUOTE || l2.ch == BACKSLASH {
        assert Escape(src, l) == Next(src, l2);
      } else {
        OtherEscape(src, l);
      }
    }
  }

  // ----- block strings -----

  predicate Triple(src: seq<byte>, k: nat) {
    k + 3 <= |src| && src[k] as int == QUOTE && src[k + 1] as int == QUOTE && src[k + 2] as int == QUOTE
  }

  /** A block string read up to `i` ends with the first three quotes from there on, or with the source. */
  ghost predicate BlockTo(src: seq<byte>, i: nat, q: nat) {
    q <= |src| &&
    if q >= i + 3 && Triple(src, q - 3) then forall k: nat | i <= k < q - 3 :: !Triple(src, k)
    else q == |src| && forall k: nat | i <= k :: !Triple(src, k)
  }

  lemma {:induction false} BlockEnds(src: seq<byte>, l: Look, q: nat)
    requires InSync(src, l) && q <= 2 && q <= l.cur.at + l.cur.width
    requires forall k :: l.cur.at + l.cur.width - q <= k < l.cur.at + l.cur.width ==> src[k] as int == QUOTE
    ensures (var r := Next(src, BlockBody(src, l, q));
             InSync(src, r) && BlockTo(src, l.cur.at + l.cur.width - q, r.cur.at))
    decreases Rest(src, l)
  {
    hide InSync, Next;
    var n, l2 := l.cur.at + l.cur.width, Next(src, l);
    WalkedNext(src, l);
    StepInSync(src, l);
    SeesByte(src, l2);
    SeesChar(src, l2);
    var r := Next(src, BlockBody(src, l, q));
    if l2.ch < 0 {
      PastEnd(src, l2);
    } else if l2.ch != QUOTE {
      BlockEnds(src, l2, 0);
      NoQuoteInside(src, l2);
      SkippedTriples(src, n, q, l2.cur.at + l2.cur.width, r.cur.at);
    } else if q == 2 {
      PastByte(src, l2);
      assert Triple(src, n - 2);
    } else {
      BlockEnds(src, l2, q + 1);
    }
  }

  lemma PastEnd(src: seq<byte>, l: Look)
    requires InSync(src, l) && l.ch < 0
    ensures InSync(src, Next(src, Fail(l))) && Next(src, Fail(l)).cur.at == |src|
  {
    hide DecodeRune;
    SeesChar(src, l);
  }

  lemma NoQuoteInside(src: seq<byte>, l: Look)
    requires InSync(src, l) && l.ch >= 0 && l.ch != QUOTE
    ensures l.cur.at + l.cur.width <= |src|
    ensures forall k :: l.cur.at <= k < l.cur.at + l.cur.width ==> src[k] as int != QUOTE
  {
    SeesChar(src, l);
    AsciiIsItself(src[l.cur.at..]);
    assert forall k :: l.cur.at <= k < l.cur.at + l.cur.width ==> src[k] == src[l.cur.at..][k - l.cur.at];
  }

  lemma SkippedTriples(src: seq<byte>, n: nat, q: nat, m: nat, end: nat)
    requires q <= 2 && q <= n < m <= |src| && (forall k :: n <= k < m ==> src[k] as int != QUOTE)
    requires BlockTo(src, m, end)
    ensures BlockTo(src, n - q, end)
  {
    forall k: nat | n - q <= k < m
      ensures !Triple(src, k)
    {
      if k < n {
        assert src[n] as int != QUOTE;
      }
    }
  }

  // ----- all kinds -----

  /** A quoted token at `p`: three quotes begin a block string, two are an empty string, and one begins a string, whose
      first character is passed over. */
  ghost predicate QuotedIs(src: seq<byte>, p: nat, kind: int, q: nat) {
    if ByteAt(src, p + 1) != QUOTE then
      kind == STRING && exists e: nat :: BodyTo(src, p + 1 + WidthAt(src, p + 1), e) && q == EndOfBody(src, e)
    else if ByteAt(src, p + 2) != QUOTE then kind == STRING && q == p + 2
    else kind == BLOCK_STRING && BlockTo(src, p + 3, q)
  }

  /** The quote, or the line feed, belongs to the string. */
  function EndOfBody(src: seq<byte>, e: nat): nat {
    if e < |src| then e + 1 else e
  }

  lemma QuotedAt(src: seq<byte>, l: Look)
    requires InSync(src, l) && l.ch == QUOTE
    ensures (var (kind, r) := QuotedToken(src, l); QuotedIs(src, l.cur.at, kind, r.cur.at))
  {
    hide InSync, Next, StringBody, BlockBody, BodyTo, BlockTo, CharAt, WidthAt;
    SeesByte(src, l);
    PastByte(src, l);
    var l2 := Next(src, l);
    SeesByte(src, l2);
    SeesChar(src, l2);
    if l2.ch == QUOTE {
      PastByte(src, l2);
      var l3 := Next(src, l2);
      SeesByte(src, l3);
      if l3.ch == QUOTE {
        BlockEnds(src, l3, 0);
      }
    } else {
      StepInSync(src, l2);
      WalkedNext(src, l2);
      var l3 := Next(src, l2);
      BodyEnds(src, l3);
      var b := StringBody(src, l3);
      WalkedNext(src, b);
      SeesByte(src, b);
      BodyStops(src, l3.cur.at, b.cur.at);
      assert l3.cur.at == l.cur.at + 1 + WidthAt(src, l.cur.at + 1);
      assert QuotedToken(src, l) == (STRING, Next(src, b));
      assert Next(src, b).cur.at == EndOfBody(src, b.cur.at);
    }
  }

  lemma {:induction false} BodyStops(src: seq<byte>, p: nat, q: nat)
    requires BodyTo(src, p, q)
    ensures q <= |src| && (q < |src| ==> src[q] as int == QUOTE || src[q] == 10)
    decreases |src| - p
  {
    if p < q {
      if src[p] as int == BACKSLASH && (ByteAt(src, p + 1) == QUOTE || ByteAt(src, p + 1) == BACKSLASH) {
        BodyStops(src, p + 2, q);
      } else {
        BodyStops(src, p + WidthAt(src, p), q);
      }
    }
  }

  /** What a token is by its first characters, and how far it reaches. */
  ghost predicate TokenIs(ident: Identifies, src: seq<byte>, t: Token) {
    var p, ch := t.from, CharAt(src, t.from);
    if p >= |src| then t.kind == EOF && t.to == p
    else if ident(ch, 0) then t.kind == IDENT && NameTo(ident, src, p + WidthAt(src, p), t.to, 1)
    else if NumberStarts(src, p) then NumberTokenOk(src, t)
    else if ch == QUOTE then QuotedIs(src, p, t.kind, t.to)
    else t.kind == ch && t.to == p + WidthAt(src, p)
  }

  lemma TokenAtIs(ident: Identifies, src: seq<byte>, l: Look)
    requires InSync(src, l)
    ensures (var (kind, r) := TokenAt(ident, src, l);
             TokenIs(ident, src, Token(kind, l.cur.at, r.cur.at, Place(l.cur), r)))
  {
    hide InSync, Next, IdentBody, NumberToken, QuotedToken, CharAt, WidthAt, NameTo, NumberTokenOk, QuotedIs;
    SeesByte(src, l);
    SeesChar(src, l);
    StepInSync(src, l);
    WalkedNext(src, l);
    var l2 := Next(src, l);
    SeesByte(src, l2);
    if l.ch >= 0 {
      if ident(l.ch, 0) {
        IdentIsName(ident, src, l2, 1);
      } else if NumberStarts(src, l.cur.at) {
        var point, exp := NumberAt(ident, src, l);
      } else if l.ch == QUOTE {
        QuotedAt(src, l);
      }
    }
  }

  /** A token that starts at `t.from`, after white space and comments from `p` on. */
  ghost predicate ComesNext(ident: Identifies, src: seq<byte>, p: nat, t: Token) {
    && Gap(src, p, t.from) && !SpaceByte(ByteAt(src, t.from))
    && (ByteAt(src, t.from) == '#' as int ==> ident('#' as int, 0))
    && TokenIs(ident, src, t)
  }

  /** Every scan from a character that is looked at: only white space and comments come before the token, which is what
      its characters say. */
  lemma ScanIs(ident: Identifies, src: seq<byte>, l: Look)
    requires InSync(src, l)
    ensures ComesNext(ident, src, l.cur.at, Scan(ident, src, l))
  {
    hide InSync, Skip, TokenAt, Gap, TokenIs;
    SkipIsGap(ident, src, l);
    TokenAtIs(ident, src, Skip(ident, src, l));
  }

  /** The errors of a number that is scanned are the faults of its text. */
  lemma FaultsAreCounted(ident: Identifies, src: seq<byte>, l: Look) returns (point: nat, exp: nat)
    requires InSync(src, l) && (Scan(ident, src, l).kind == INT || Scan(ident, src, l).kind == FLOAT)
    ensures (var t := Scan(ident, src, l);
             && NumberForm(src, t, point, exp)
             && Reported(src, t.after) == Reported(src, Skip(ident, src, l)) + Faults(src, t.from, point, exp, t.to))
  {
    hide InSync, Skip, TokenAt, NumberForm, Reported, Faults;
    SkipIsGap(ident, src, l);
    NumberOnlyAt(ident, src, Skip(ident, src, l));
    point, exp := NumberAt(ident, src, Skip(ident, src, l));
  }

  // ----- all tokens -----

  ghost predicate ReadAs(ident: Identifies, src: seq<byte>, p: nat, ts: seq<Token>)
    decreases |ts|
  {
    ts != [] && ComesNext(ident, src, p, ts[0]) &&
    if ts[0].kind == EOF then |ts| == 1 else ReadAs(ident, src, ts[0].to, ts[1..])
  }

  ghost predicate NoEmptyLiteral(src: seq<byte>, ts: seq<Token>) {
    forall t | t in ts :: !IsEmptyLiteral(src, t.kind, t.from, t.to)
  }

  /** The tokens of a source without empty string literals are what its characters say. */
  lemma {:induction false} AllAreRead(ident: Identifies, src: seq<byte>, l: Look)
    requires src != [] && Startable(src, l) && InSync(src, l) && NoEmptyLiteral(src, Tokens(ident, src, l))
    ensures ReadAs(ident, src, l.cur.at, Tokens(ident, src, l))
    decreases Left(src, l)
  {
    hide InSync, Startable, Scan, ComesNext, IsEmptyLiteral;
    ScanReached(ident, src, l);
    ScanIs(ident, src, l);
    var t := Scan(ident, src, l);
    if t.kind != EOF {
      assert Tokens(ident, src, l) == [t] + Tokens(ident, src, t.after);
      assert t in Tokens(ident, src, l);
      AllAreRead(ident, src, t.after);
    }
  }

  /** Whatever source: the text of each number token says its kind. */
  lemma {:induction false} NumbersAreRead(ident: Identifies, src: seq<byte>, l: Look)
    requires src != [] && Startable(src, l)
    ensures forall t :: t in Tokens(ident, src, l) && (t.kind == INT || t.kind == FLOAT) ==> NumberTokenOk(src, t)
    decreases Left(src, l)
  {
    hide InSync, Startable, Scan, NumberTokenOk;
    ScanReached(ident, src, l);
    var t := Scan(ident, src, l);
    if t.kind == INT || t.kind == FLOAT {
      OneNumberIsRead(ident, src, l);
    }
    if t.kind != EOF {
      NumbersAreRead(ident, src, t.after);
    }
  }

  lemma OneNumberIsRead(ident: Identifies, src: seq<byte>, l: Look)
    requires src != [] && Startable(src, l)
    requires Scan(ident, src, l).kind == INT || Scan(ident, src, l).kind == FLOAT
    ensures NumberTokenOk(src, Scan(ident, src, l))
  {
    hide InSync, Skip, NumberToken, IdentBody, NumberTokenOk, Placed, Next;
    SkipReached(ident, src, l);
    var l2 := Skip(ident, src, l);
    if InSync(src, l2) {
      NumberOnlyAt(ident, src, l2);
      var point, exp := NumberAt(ident, src, l2);
    }
  }

  // ----- from the first character -----

  /** A byte order mark may come first. */
  function FirstAt(src: seq<byte>): nat {
    if CharAt(src, 0) == BOM then WidthAt(src, 0) else 0
  }

  lemma FirstIsAt(src: seq<byte>)
    requires src != []
    ensures First(src).cur.at == FirstAt(src)
  {
    hide DecodeRune;
  }

  /** The tokens of any source, from its first character on. */
  lemma SourceIsRead(ident: Identifies, src: seq<byte>)
    requires src != []
    ensures Startable(src, First(src))
    ensures NoEmptyLiteral(src, Tokens(ident, src, First(src))) ==>
              ReadAs(ident, src, FirstAt(src), Tokens(ident, src, First(src)))
    ensures forall t :: t in Tokens(ident, src, First(src)) && (t.kind == INT || t.kind == FLOAT) ==>
              NumberTokenOk(src, t)
  {
    hide InSync, Startable, First, Tokens, ReadAs, NoEmptyLiteral, NumberTokenOk, FirstAt;
    FirstIsStartable(src);
    FirstIsAt(src);
    NumbersAreRead(ident, src, First(src));
    if NoEmptyLiteral(src, Tokens(ident, src, First(src))) {
      AllAreRead(ident, src, First(src));
    }
  }
}
