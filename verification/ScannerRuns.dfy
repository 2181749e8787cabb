/**
 Whole runs of the scanner: all tokens of a source.
 */
module ScannerRuns {
  import opened Utf8
  import opened ScannerSpec
  import opened ScannerPositions

  /** From `a` on the scanner came to `b`, and looks at the character there. */
  ghost predicate Reached(src: seq<byte>, a: Look, b: Look) {
    Good(src, b) && a.cur.at <= b.cur.at
  }

  lemma NextReached(src: seq<byte>, l: Look)
    requires src != [] && Placed(src, l.cur)
    ensures Reached(src, l, Next(src, l)) && Next(src, l).cur.at == l.cur.at + l.cur.width
    ensures l.ch >= 0 ==> Left(src, Next(src, l)) < Left(src, l)
  {
    hide Good, Placed;
    StepIsGood(src, l.cur);
  }

  lemma FailReached(src: seq<byte>, l: Look, bad: bool)
    requires Good(src, l)
    ensures Reached(src, l, FailIf(l, bad))
  {
    hide Aligned, RuneCount, Newlines, LineStart, DecodeRune;
  }

  lemma IsPlaced(src: seq<byte>, l: Look)
    requires Good(src, l)
    ensures Placed(src, l.cur)
  {
    hide Placed;
  }

  lemma {:induction false} IdentReached(ident: Identifies, src: seq<byte>, l: Look, i: nat)
    requires src != [] && Good(src, l)
    ensures Reached(src, l, IdentBody(ident, src, l, i)) && Left(src, IdentBody(ident, src, l, i)) <= Left(src, l)
    decreases Left(src, l)
  {
    hide Good, Placed, Next;
    IsPlaced(src, l);
    if ident(l.ch, i) && l.ch >= 0 {
      NextReached(src, l);
      IdentReached(ident, src, Next(src, l), i + 1);
    }
  }

  lemma {:induction false} DigitsReached(src: seq<byte>, base: int, r: DigitRun)
    requires src != [] && Good(src, r.look)
    ensures Reached(src, r.look, Digits(src, base, r).look) && Left(src, Digits(src, base, r).look) <= Left(src, r.look)
    decreases Left(src, r.look)
  {
    hide Good, Placed, Next, InRun;
    IsPlaced(src, r.look);
    var ch := r.look.ch;
    if InRun(base, ch) {
      RunIsText(base, ch);
      NextReached(src, r.look);
      DigitsReached(src, base, DigitRun(
        Next(src, r.look),
        if base <= 10 && ch != '_' as int && ch >= '0' as int + base && r.invalid == 0 then ch else r.invalid,
        r.digit || ch != '_' as int,
        r.sep || ch == '_' as int));
    }
  }

  lemma RunIsText(base: int, ch: int)
    requires InRun(base, ch)
    ensures ch >= 0
  {
  }

  lemma NextStays(src: seq<byte>, l: Look)
    requires src != [] && Good(src, l)
    ensures Reached(src, l, Next(src, l)) && Left(src, Next(src, l)) <= Left(src, l)
  {
    hide Good, Placed;
    IsPlaced(src, l);
    NextReached(src, l);
  }

  lemma IntegerReached(src: seq<byte>, l: Look)
    requires src != [] && Good(src, l)
    ensures Reached(src, l, IntegerPart(src, l).0.run.look) && Left(src, IntegerPart(src, l).0.run.look) <= Left(src, l)
  {
    hide Good, Digits, PrefixOf, BaseOf;
    var start := l;
    var prefix, leading := NoPrefix, false;
    if l.ch == '0' as int {
      NextStays(src, l);
      NextStays(src, Next(src, l));
      prefix := PrefixOf(Next(src, l).ch);
      leading := prefix == Zero;
      start := if leading then Next(src, l) else Next(src, Next(src, l));
    }
    var run := DigitRun(start, 0, leading, false);
    DigitsReached(src, BaseOf(prefix), run);
    NextStays(src, Digits(src, BaseOf(prefix), run).look);
  }

  lemma FractionReached(src: seq<byte>, n: Number)
    requires src != [] && Good(src, n.run.look)
    ensures Reached(src, n.run.look, FractionalPart(src, n).run.look)
    ensures Left(src, FractionalPart(src, n).run.look) <= Left(src, n.run.look)
  {
    hide Good, Digits;
    var bad := n.prefix == Octal || n.prefix == Binary;
    FailReached(src, n.run.look, bad);
    DigitsReached(src, BaseOf(n.prefix), n.run.(look := FailIf(n.run.look, bad)));
  }

  lemma ExponentDigitsReached(src: seq<byte>, l: Look)
    requires src != [] && Good(src, l)
    ensures Reached(src, l, ExponentDigits(src, l).look) && Left(src, ExponentDigits(src, l).look) <= Left(src, l)
  {
    hide Good, Digits;
    NextStays(src, l);
    NextStays(src, Next(src, l));
    var l2 := Next(src, l);
    var l3 := if l2.ch == '+' as int || l2.ch == '-' as int then Next(src, l2) else l2;
    DigitsReached(src, 10, DigitRun(l3, 0, false, false));
    var r := Digits(src, 10, DigitRun(l3, 0, false, false));
    FailReached(src, r.look, !r.digit);
  }

  lemma ExponentReached(src: seq<byte>, n: Number)
    requires src != [] && Good(src, n.run.look)
    ensures Reached(src, n.run.look, Exponent(src, n).run.look)
    ensures Left(src, Exponent(src, n).run.look) <= Left(src, n.run.look)
  {
    hide Good, ExponentDigits;
    var bad := BadExponent(n.prefix, Lower(n.run.look.ch));
    FailReached(src, n.run.look, bad);
    ExponentDigitsReached(src, FailIf(n.run.look, bad));
    FailReached(src, n.run.look, n.prefix == Hex && n.tok == FLOAT);
  }

  lemma NumberReached(src: seq<byte>, start: nat, l: Look, seenDot: bool)
    requires src != [] && Good(src, l)
    ensures (var (kind, r) := NumberToken(src, start, l, seenDot);
             Reached(src, l, r) && Left(src, r) <= Left(src, l) && (kind == INT || kind == FLOAT))
  {
    hide Good, IntegerPart, FractionalPart, NumberEnd;
    var (n, dot) := if seenDot then (Number(NoPrefix, DigitRun(l, 0, false, false), FLOAT), true)
                    else IntegerPart(src, l);
    if !seenDot {
      IntegerReached(src, l);
      IntegerIsInt(src, l);
    }
    FractionReached(src, n);
    FractionIsFloat(src, n);
    NumberEndReached(src, start, if dot then FractionalPart(src, n) else n);
  }

  lemma IntegerIsInt(src: seq<byte>, l: Look)
    ensures IntegerPart(src, l).0.tok == INT
  {
  }

  lemma FractionIsFloat(src: seq<byte>, n: Number)
    ensures FractionalPart(src, n).tok == FLOAT
  {
  }

  lemma NumberEndReached(src: seq<byte>, start: nat, n: Number)
    requires src != [] && Good(src, n.run.look) && (n.tok == INT || n.tok == FLOAT)
    ensures (var (kind, r) := NumberEnd(src, start, n);
             Reached(src, n.run.look, r) && Left(src, r) <= Left(src, n.run.look) && (kind == INT || kind == FLOAT))
  {
    hide Good, BadSeparator;
    FailReached(src, n.run.look, !n.run.digit);
    var m := n.(run := n.run.(look := FailIf(n.run.look, !n.run.digit)));
    ExponentReached(src, m);
    var n2 := Exponent(src, m);
    FailReached(src, n2.run.look, n2.tok == INT && n2.run.invalid != 0);
    var l := FailIf(n2.run.look, n2.tok == INT && n2.run.invalid != 0);
    FailReached(src, l, n2.run.sep && start <= l.cur.at <= |src| && BadSeparator(src[start..l.cur.at]));
  }

  lemma {:induction false} EscapeDigitsReached(src: seq<byte>, l: Look, base: int, n: nat)
    requires src != [] && Good(src, l)
    ensures Reached(src, l, EscapeDigits(src, l, base, n))
    decreases n
  {
    hide Good, Next, DigitVal;
    if n > 0 && DigitVal(l.ch) < base {
      NextStays(src, l);
      EscapeDigitsReached(src, Next(src, l), base, n - 1);
    } else {
      FailReached(src, l, n > 0);
    }
  }

  lemma EscapeReached(src: seq<byte>, l: Look)
    requires src != [] && Good(src, l)
    ensures Reached(src, l, Escape(src, l))
  {
    hide Good, EscapeDigits;
    NextStays(src, l);
    var l2 := Next(src, l);
    NextStays(src, l2);
    EscapeDigitsReached(src, l2, 8, 3);
    EscapeDigitsReached(src, Next(src, l2), 16, 2);
    EscapeDigitsReached(src, Next(src, l2), 16, 4);
    EscapeDigitsReached(src, Next(src, l2), 16, 8);
    FailReached(src, l2, true);
  }

  lemma {:induction false} StringReached(src: seq<byte>, l: Look)
    requires src != [] && Good(src, l)
    ensures Reached(src, l, StringBody(src, l)) && Rest(src, StringBody(src, l)) <= Rest(src, l)
    decreases Left(src, l)
  {
    hide Good, Escape, Next;
    if l.ch == '"' as int {
    } else if l.ch == 10 || l.ch < 0 {
      FailReached(src, l, true);
    } else if l.ch == '\\' as int {
      EscapeLeft(src, l);
      EscapeReached(src, l);
      StringReached(src, Escape(src, l));
    } else {
      NextStays(src, l);
      IsPlaced(src, l);
      NextReached(src, l);
      StringReached(src, Next(src, l));
    }
  }

  lemma {:induction false} BlockReached(src: seq<byte>, l: Look, q: nat)
    requires src != [] && Placed(src, l.cur)
    ensures Reached(src, l, BlockBody(src, l, q)) && Rest(src, BlockBody(src, l, q)) <= Rest(src, l)
    decreases Rest(src, l)
  {
    hide Good, Placed, Next;
    NextReached(src, l);
    var l2 := Next(src, l);
    IsPlaced(src, l2);
    if l2.ch < 0 {
      FailReached(src, l2, true);
    } else if l2.ch != '"' as int {
      BlockReached(src, l2, 0);
    } else if q != 2 {
      BlockReached(src, l2, q + 1);
    }
  }

  // ----- one token -----

  /** What a scan can start from: the scanner looks at the character at the cursor, or at a quote left over. */
  ghost predicate Startable(src: seq<byte>, l: Look) {
    Placed(src, l.cur) && (InSync(src, l) || l.ch == '"' as int)
  }

  ghost predicate IsEmptyLiteral(src: seq<byte>, kind: int, start: nat, end: nat) {
    kind == STRING && start <= end <= |src| && src[start..end] == ['"' as int, '"' as int]
  }

  lemma QuoteAt(src: seq<byte>, l: Look)
    requires InSync(src, l) && l.ch == '"' as int
    ensures l.cur.width == 1 && l.cur.at < |src| && src[l.cur.at] as int == '"' as int
  {
    AsciiIsItself(src[l.cur.at..]);
  }

  lemma NotQuoteAt(src: seq<byte>, l: Look)
    requires InSync(src, l) && l.ch != '"' as int
    ensures l.cur.at < |src| ==> src[l.cur.at] as int != '"' as int
  {
    if l.cur.at < |src| && src[l.cur.at] as int == '"' as int {
      AsciiIsItself(src[l.cur.at..]);
    }
  }

  lemma GoodIs(src: seq<byte>, l: Look)
    ensures Good(src, l) <==> Placed(src, l.cur) && InSync(src, l)
  {
  }

  /** Quoted tokens end with the scanner looking at the character at the cursor, unless the literal is empty. */
  lemma QuotedReached(src: seq<byte>, l: Look)
    requires src != [] && Placed(src, l.cur) && l.ch == '"' as int
    ensures (var (kind, r) := QuotedToken(src, l);
             && Startable(src, r) && l.cur.at + l.cur.width <= r.cur.at && Left(src, r) < Left(src, l)
             && (kind == STRING || kind == BLOCK_STRING)
             && (InSync(src, l) ==> (InSync(src, r) <==> !IsEmptyLiteral(src, kind, l.cur.at, r.cur.at))))
  {
    hide Good, Placed, InSync, Next, StringBody, BlockBody;
    NextReached(src, l);
    var l2 := Next(src, l);
    GoodIs(src, l2);
    NextReached(src, l2);
    var l3 := Next(src, l2);
    GoodIs(src, l3);
    if l2.ch == '"' as int && l3.ch == '"' as int {
      BlockReached(src, l3, 0);
      var b := BlockBody(src, l3, 0);
      GoodIs(src, b);
      NextReached(src, b);
      GoodIs(src, Next(src, b));
    } else if l2.ch == '"' as int {
      EmptyIsEmpty(src, l);
    } else {
      StringReached(src, l3);
      var b := StringBody(src, l3);
      GoodIs(src, b);
      NextReached(src, b);
      GoodIs(src, Next(src, b));
      if InSync(src, l) {
        QuoteAt(src, l);
        NotQuoteAt(src, l2);
      }
    }
  }

  /** Two quotes and no third: the text is two quotes, and the scanner looks at the second though it is past it. */
  lemma EmptyIsEmpty(src: seq<byte>, l: Look)
    requires src != [] && Placed(src, l.cur) && l.ch == '"' as int
    requires Next(src, l).ch == '"' as int && Next(src, Next(src, l)).ch != '"' as int
    ensures (var r := Look(l.ch, Next(src, Next(src, l)).cur);
             Startable(src, r) && l.cur.at + l.cur.width <= r.cur.at && !InSync(src, r)
             && (InSync(src, l) ==> IsEmptyLiteral(src, STRING, l.cur.at, r.cur.at)))
  {
    hide Placed, Next;
    NextReached(src, l);
    var l2 := Next(src, l);
    NextReached(src, l2);
    var l3 := Next(src, l2);
    QuoteAt(src, l2);
    if InSync(src, l) {
      QuoteAt(src, l);
      assert src[l.cur.at..l3.cur.at] == ['"' as int, '"' as int];
    }
  }

  /** After a token the scanner looks at the character at the cursor, unless the token was an empty literal. */
  lemma TokenReached(ident: Identifies, src: seq<byte>, l: Look)
    requires src != [] && Startable(src, l)
    ensures (var (kind, r) := TokenAt(ident, src, l);
             && Startable(src, r) && l.cur.at <= r.cur.at
             && (l.ch >= 0 ==> Left(src, r) < Left(src, l) && l.cur.at + l.cur.width <= r.cur.at)
             && (kind == EOF <==> l.ch < 0) && (kind == EOF ==> r == l)
             && (InSync(src, l) ==> (InSync(src, r) <==> !IsEmptyLiteral(src, kind, l.cur.at, r.cur.at))))
  {
    hide Good, Placed, InSync, Next, IdentBody, NumberToken, QuotedToken, Left;
    GoodIs(src, l);
    if l.ch >= 0 {
      NextReached(src, l);
      var l2 := Next(src, l);
      GoodIs(src, l2);
      if ident(l.ch, 0) {
        IdentReached(ident, src, l2, 1);
        GoodIs(src, IdentBody(ident, src, l2, 1));
      } else if IsDecimal(l.ch) {
        FirstDigit(src, l);
        GoodIs(src, NumberToken(src, l.cur.at, l, false).1);
      } else if l.ch == '"' as int {
        QuotedReached(src, l);
      } else if l.ch == '.' as int && IsDecimal(l2.ch) {
        NumberReached(src, l.cur.at, l2, true);
        GoodIs(src, NumberToken(src, l.cur.at, l2, true).1);
      }
    }
  }

  /** A number takes up at least its first digit. */
  lemma FirstDigit(src: seq<byte>, l: Look)
    requires src != [] && Good(src, l) && IsDecimal(l.ch)
    ensures (var (kind, r) := NumberToken(src, l.cur.at, l, false);
             Good(src, r) && Left(src, r) < Left(src, l) && l.cur.at + l.cur.width <= r.cur.at &&
             (kind == INT || kind == FLOAT))
  {
    hide Good, Placed, Next, Digits, FractionalPart, NumberEnd, Left;
    IsPlaced(src, l);
    NextReached(src, l);
    var l2 := Next(src, l);
    IntegerAfter(src, l);
    var (n, dot) := IntegerPart(src, l);
    IntegerIsInt(src, l);
    FractionReached(src, n);
    FractionIsFloat(src, n);
    NumberEndReached(src, l.cur.at, if dot then FractionalPart(src, n) else n);
  }

  lemma IntegerAfter(src: seq<byte>, l: Look)
    requires src != [] && Good(src, l) && IsDecimal(l.ch)
    ensures Reached(src, Next(src, l), IntegerPart(src, l).0.run.look)
    ensures Left(src, IntegerPart(src, l).0.run.look) <= Left(src, Next(src, l))
  {
    hide Good, Next, Left, PrefixOf;
    NextStays(src, l);
    var l2 := Next(src, l);
    if l.ch == '0' as int {
      NextStays(src, l2);
      var prefix := PrefixOf(l2.ch);
      var run := DigitRun(if prefix == Zero then l2 else Next(src, l2), 0, prefix == Zero, false);
      DigitsReached(src, BaseOf(prefix), run);
      NextStays(src, Digits(src, BaseOf(prefix), run).look);
    } else {
      var run := DigitRun(l2, 0, true, false);
      assert Digits(src, 10, DigitRun(l, 0, false, false)) == Digits(src, 10, run);
      DigitsReached(src, 10, run);
      NextStays(src, Digits(src, 10, run).look);
    }
  }

  lemma {:induction false} SpaceReached(src: seq<byte>, l: Look)
    requires src != [] && Good(src, l)
    ensures Reached(src, l, SkipSpace(src, l))
    decreases Left(src, l)
  {
    hide Good, Next;
    if IsSpace(l.ch) {
      IsPlaced(src, l);
      NextReached(src, l);
      SpaceReached(src, Next(src, l));
    }
  }

  lemma {:induction false} CommentReached(src: seq<byte>, l: Look)
    requires src != [] && Good(src, l)
    ensures Reached(src, l, CommentBody(src, l))
    decreases Left(src, l)
  {
    hide Good, Next;
    if l.ch != 10 && l.ch >= 0 {
      IsPlaced(src, l);
      NextReached(src, l);
      CommentReached(src, Next(src, l));
    }
  }

  lemma {:induction false} SkipReached(ident: Identifies, src: seq<byte>, l: Look)
    requires src != [] && Startable(src, l)
    ensures Startable(src, Skip(ident, src, l)) && l.cur.at <= Skip(ident, src, l).cur.at
    ensures InSync(src, l) ==> InSync(src, Skip(ident, src, l))
    ensures !InSync(src, l) ==> Skip(ident, src, l) == l
    decreases Left(src, l)
  {
    hide Good, Placed, InSync, Next, CommentBody;
    GoodIs(src, l);
    if InSync(src, l) {
      SpaceReached(src, l);
      var l2 := SkipSpace(src, l);
      GoodIs(src, l2);
      if l2.ch == '#' as int && !ident(l2.ch, 0) {
        NextStays(src, l2);
        GoodIs(src, Next(src, l2));
        CommentReached(src, Next(src, l2));
        GoodIs(src, CommentBody(src, Next(src, l2)));
        SkipReached(ident, src, CommentBody(src, Next(src, l2)));
      }
    }
  }

  // ----- one scan -----

  lemma AtEnd(src: seq<byte>, l: Look)
    requires Startable(src, l) && l.ch < 0
    ensures l.cur.at == |src|
  {
  }

  /** One scan: it moves on, says where the token is, and leaves the scanner looking at the character at the
      cursor unless the token was an empty literal. */
  lemma ScanReached(ident: Identifies, src: seq<byte>, l: Look)
    requires src != [] && Startable(src, l)
    ensures (var t := Scan(ident, src, l);
             && l.cur.at <= t.from <= t.to <= |src| && t.to == t.after.cur.at && Startable(src, t.after)
             && t.place == LineAndColumn(src, t.from)
             && (t.kind != EOF ==> Left(src, t.after) < Left(src, l))
             && (t.kind == EOF ==> t.from == t.to == |src|)
             && (InSync(src, l) ==> (InSync(src, t.after) <==> !IsEmptyLiteral(src, t.kind, t.from, t.to)))
             && (InSync(src, l) && t.kind != EOF ==> t.from < t.to))
  {
    hide Placed, TokenAt, Skip;
    SkipReached(ident, src, l);
    var l2 := Skip(ident, src, l);
    TokenReached(ident, src, l2);
    if l2.ch < 0 {
      AtEnd(src, l2);
    }
    PlaceIsRight(src, l2.cur);
    PlacedWithin(src, l2.cur);
    PlacedWithin(src, TokenAt(ident, src, l2).1.cur);
  }

  // ----- all tokens -----

  /** The tokens from what is looked at to the end of the source. */
  function Tokens(ident: Identifies, src: seq<byte>, l: Look): seq<Token>
    requires src != [] && Startable(src, l)
    decreases Left(src, l)
  {
    ScanReached(ident, src, l);
    var t := Scan(ident, src, l);
    if t.kind == EOF then [t] else [t] + Tokens(ident, src, t.after)
  }

  /** What lies before and in the tokens, from `p` on. */
  function Pieces(src: seq<byte>, p: nat, ts: seq<Token>): seq<byte>
    decreases ts
  {
    if ts == [] then []
    else if p <= ts[0].from <= ts[0].to <= |src| then
      src[p..ts[0].from] + src[ts[0].from..ts[0].to] + Pieces(src, ts[0].to, ts[1..])
    else []
  }

  lemma {:induction false} PiecesAreTheSource(ident: Identifies, src: seq<byte>, l: Look, p: nat)
    requires src != [] && Startable(src, l) && p <= l.cur.at
    ensures p <= |src| && Pieces(src, p, Tokens(ident, src, l)) == src[p..]
    decreases Left(src, l)
  {
    hide Scan, Startable;
    ScanReached(ident, src, l);
    var t := Scan(ident, src, l);
    var ts := Tokens(ident, src, l);
    assert src[p..] == src[p..t.from] + src[t.from..t.to] + src[t.to..];
    if t.kind == EOF {
      assert ts[1..] == [];
    } else {
      PiecesAreTheSource(ident, src, t.after, t.to);
      assert ts[1..] == Tokens(ident, src, t.after);
    }
  }

  lemma {:induction false} PlacesAreRight(ident: Identifies, src: seq<byte>, l: Look)
    requires src != [] && Startable(src, l)
    ensures forall t :: t in Tokens(ident, src, l) ==> t.from <= t.to <= |src| && t.place == LineAndColumn(src, t.from)
    decreases Left(src, l)
  {
    hide Scan, Startable, LineAndColumn;
    ScanReached(ident, src, l);
    var t := Scan(ident, src, l);
    if t.kind != EOF {
      PlacesAreRight(ident, src, t.after);
    }
  }

  lemma FirstIsStartable(src: seq<byte>)
    requires src != []
    ensures Startable(src, First(src)) && InSync(src, First(src))
  {
    hide Placed, InSync, Step;
    var c := Cursor(0, 0, 1, 0, 0, 0);
    StepIsGood(src, c);
    var l := Step(src, c);
    GoodIs(src, l);
    NextReached(src, l);
    GoodIs(src, Next(src, l));
  }

  /** All tokens of a source: with what lies between them they make up the source, and each is reported where a
      new count of lines and characters puts it. */
  lemma AllTokens(ident: Identifies, src: seq<byte>)
    requires src != []
    ensures Startable(src, First(src))
    ensures (var ts := Tokens(ident, src, First(src));
             Pieces(src, 0, ts) == src && forall t :: t in ts ==>
             t.from <= t.to <= |src| && t.place == LineAndColumn(src, t.from))
  {
    hide First, Tokens, Startable;
    FirstIsStartable(src);
    PiecesAreTheSource(ident, src, First(src), 0);
    PlacesAreRight(ident, src, First(src));
    assert src[0..] == src;
  }

  // ----- string literals -----

  /** Two looks at one place; the counts may differ. */
  ghost predicate SameSpot(l: Look, m: Look) {
    l.ch == m.ch && l.cur.at == m.cur.at && l.cur.width == m.cur.width
  }

  lemma SameSpotNext(src: seq<byte>, l: Look, m: Look)
    requires l.cur.at == m.cur.at && l.cur.width == m.cur.width
    ensures SameSpot(Next(src, l), Next(src, m))
  {
    hide DecodeRune;
  }

  lemma {:induction false} SameSpotDigits(src: seq<byte>, l: Look, m: Look, base: int, n: nat)
    requires SameSpot(l, m)
    ensures SameSpot(EscapeDigits(src, l, base, n), EscapeDigits(src, m, base, n))
    decreases n
  {
    hide Next, DigitVal;
    if n > 0 && DigitVal(l.ch) < base {
      SameSpotNext(src, l, m);
      SameSpotDigits(src, Next(src, l), Next(src, m), base, n - 1);
    }
  }

  lemma SameSpotEscape(src: seq<byte>, l: Look, m: Look)
    requires l.cur.at == m.cur.at && l.cur.width == m.cur.width
    ensures SameSpot(Escape(src, l), Escape(src, m))
  {
    hide Next, EscapeDigits;
    SameSpotNext(src, l, m);
    var l2, m2 := Next(src, l), Next(src, m);
    SameSpotNext(src, l2, m2);
    SameSpotDigits(src, l2, m2, 8, 3);
    SameSpotDigits(src, Next(src, l2), Next(src, m2), 16, 2);
    SameSpotDigits(src, Next(src, l2), Next(src, m2), 16, 4);
    SameSpotDigits(src, Next(src, l2), Next(src, m2), 16, 8);
  }

  /** Where a string's body ends depends on the place it is read from alone. */
  lemma {:induction false} SameSpotBody(src: seq<byte>, l: Look, m: Look)
    requires SameSpot(l, m)
    ensures SameSpot(StringBody(src, l), StringBody(src, m))
    decreases Left(src, l)
  {
    hide Next, Escape;
    if l.ch == '"' as int || l.ch == 10 || l.ch < 0 {
    } else if l.ch == '\\' as int {
      EscapeLeft(src, l);
      EscapeLeft(src, m);
      SameSpotEscape(src, l, m);
      SameSpotBody(src, Escape(src, l), Escape(src, m));
    } else {
      NextShrinks(src, l);
      SameSpotNext(src, l, m);
      SameSpotBody(src, Next(src, l), Next(src, m));
    }
  }

  lemma NextShrinks(src: seq<byte>, l: Look)
    requires l.ch >= 0
    ensures Left(src, Next(src, l)) < Left(src, l)
  {
  }

  lemma {:induction false} DigitsMoveOn(src: seq<byte>, l: Look, base: int, n: nat)
    ensures l.cur.at <= EscapeDigits(src, l, base, n).cur.at
    decreases n
  {
    hide DigitVal;
    if n > 0 && DigitVal(l.ch) < base {
      DigitsMoveOn(src, Next(src, l), base, n - 1);
    }
  }

  lemma EscapeMovesOn(src: seq<byte>, l: Look)
    ensures l.cur.at <= Escape(src, l).cur.at
  {
    hide EscapeDigits;
    var l2 := Next(src, l);
    DigitsMoveOn(src, l2, 8, 3);
    DigitsMoveOn(src, Next(src, l2), 16, 2);
    DigitsMoveOn(src, Next(src, l2), 16, 4);
    DigitsMoveOn(src, Next(src, l2), 16, 8);
  }

  lemma {:induction false} BodyMovesOn(src: seq<byte>, l: Look)
    ensures l.cur.at <= StringBody(src, l).cur.at
    decreases Left(src, l)
  {
    hide Escape;
    if l.ch == '"' as int || l.ch == 10 || l.ch < 0 {
    } else if l.ch == '\\' as int {
      EscapeLeft(src, l);
      EscapeMovesOn(src, l);
      BodyMovesOn(src, Escape(src, l));
    } else {
      BodyMovesOn(src, Next(src, l));
    }
  }

  /** Backslashes, one at least, directly followed by a quote. */
  predicate BackslashesToQuote(src: seq<byte>, l: Look)
    decreases Left(src, l)
  {
    l.ch == '\\' as int && (Next(src, l).ch == '"' as int || BackslashesToQuote(src, Next(src, l)))
  }

  /** Characters that are not special in a string. */
  predicate IsPlain(ch: int) {
    ch >= 0 && ch != '"' as int && ch != '\\' as int && ch != 10
  }

  /** Digits of an escape could as well be read as plain characters. */
  lemma {:induction false} DigitsArePlain(src: seq<byte>, l: Look, base: int, n: nat)
    requires base <= 16
    ensures SameSpot(StringBody(src, EscapeDigits(src, l, base, n)), StringBody(src, l))
    decreases n
  {
    hide Next;
    if n > 0 && DigitVal(l.ch) < base {
      DigitIsPlain(l.ch);
      DigitsArePlain(src, Next(src, l), base, n - 1);
    } else {
      SameSpotBody(src, EscapeDigits(src, l, base, n), l);
    }
  }

  lemma DigitIsPlain(ch: int)
    requires DigitVal(ch) < 16
    ensures IsPlain(ch)
  {
  }

  /** After an escape of anything but a quote or a backslash a body goes on as if the backslash stood alone. */
  lemma OtherEscape(src: seq<byte>, l: Look)
    requires Next(src, l).ch != '"' as int && Next(src, l).ch != '\\' as int
    ensures SameSpot(StringBody(src, Escape(src, l)), StringBody(src, Next(src, l)))
  {
    hide Next, EscapeDigits;
    var l2 := Next(src, l);
    if SimpleEscape(l2.ch) {
    } else if '0' as int <= l2.ch <= '7' as int {
      DigitsArePlain(src, l2, 8, 3);
    } else if l2.ch == 'x' as int {
      DigitsArePlain(src, Next(src, l2), 16, 2);
    } else if l2.ch == 'u' as int {
      DigitsArePlain(src, Next(src, l2), 16, 4);
    } else if l2.ch == 'U' as int {
      DigitsArePlain(src, Next(src, l2), 16, 8);
    } else {
      SameSpotBody(src, Fail(l2), l2);
    }
  }

  /** Taking a backslash for a plain character matters exactly if the backslashes here lead to a quote. */
  lemma {:induction false} BackslashMatters(src: seq<byte>, l: Look)
    requires l.ch == '\\' as int
    ensures StringBody(src, Escape(src, l)).cur.at != StringBody(src, Next(src, l)).cur.at <==>
            BackslashesToQuote(src, l)
    decreases Left(src, l)
  {
    hide StringBody, Escape;
    var l2 := Next(src, l);
    if l2.ch == '"' as int {
      EscapedQuote(src, l);
    } else if l2.ch == '\\' as int {
      EscapedBackslash(src, l);
      BackslashMatters(src, l2);
    } else {
      OtherEscape(src, l);
    }
  }

  lemma EscapedQuote(src: seq<byte>, l: Look)
    requires Next(src, l).ch == '"' as int
    ensures StringBody(src, Escape(src, l)).cur.at > StringBody(src, Next(src, l)).cur.at
  {
    var l2 := Next(src, l);
    BodyMovesOn(src, Next(src, l2));
    assert Escape(src, l) == Next(src, l2);
    assert l2.cur.width > 0;
  }

  lemma EscapedBackslash(src: seq<byte>, l: Look)
    requires Next(src, l).ch == '\\' as int
    ensures Escape(src, l) == Next(src, Next(src, l))
    ensures StringBody(src, Next(src, l)) == StringBody(src, Escape(src, Next(src, l)))
  {
    EscapeLeft(src, Next(src, l));
  }

  /** The character after the opening quote is passed over unseen.  The literal still ends where its body ends,
      exactly if that character is no line feed and does not begin a run of backslashes that leads to a quote. */
  lemma FirstCharacterUnseen(src: seq<byte>, l: Look)
    requires Next(src, l).ch >= 0 && Next(src, l).ch != '"' as int
    ensures QuotedToken(src, l) == (STRING, Next(src, StringBody(src, Next(src, Next(src, l)))))
    ensures StringBody(src, Next(src, Next(src, l))).cur.at == StringBody(src, Next(src, l)).cur.at <==>
            Next(src, l).ch != 10 && !BackslashesToQuote(src, Next(src, l))
  {
    hide Escape, BackslashesToQuote;
    var l2 := Next(src, l);
    if l2.ch == 10 {
      BodyMovesOn(src, Next(src, l2));
      assert l2.cur.width > 0;
    } else if l2.ch == '\\' as int {
      EscapeLeft(src, l2);
      BackslashMatters(src, l2);
    } else {
      NoBackslash(src, l2);
    }
  }

  lemma NoBackslash(src: seq<byte>, l: Look)
    requires l.ch != '\\' as int
    ensures !BackslashesToQuote(src, l)
  {
  }

  lemma AsciiStep(src: seq<byte>, c: Cursor)
    requires c.at + c.width < |src| && src[c.at + c.width] < RUNE_SELF && src[c.at + c.width] != 0 &&
             src[c.at + c.width] != 10
    ensures Step(src, c) == Look(src[c.at + c.width], c.(at := c.at + c.width, width := 1, column := c.column + 1))
  {
    AsciiIsItself(src[c.at + c.width..]);
  }

  /** An escaped quote at the start of a literal ends it. */
  lemma EscapedQuoteEndsLiteral(ident: Identifies)
    requires !ident('"' as int, 0)
    ensures (var src: seq<byte> := ['"' as int, '\\' as int, '"' as int, 'a' as int, '"' as int];
             var t := Scan(ident, src, First(src));
             t.kind == STRING && t.from == 0 && t.to == 3 && src[t.from..t.to] == ['"' as int, '\\' as int, '"' as int])
  {
    hide Step;
    var src: seq<byte> := ['"' as int, '\\' as int, '"' as int, 'a' as int, '"' as int];
    AsciiStep(src, Cursor(0, 0, 1, 0, 0, 0));
    var l := First(src);
    AsciiStep(src, l.cur);
    var l2 := Next(src, l);
    AsciiStep(src, l2.cur);
    var l3 := Next(src, l2);
    AsciiStep(src, l3.cur);
    assert Skip(ident, src, l) == l;
  }

  /** A line feed at the start of a literal is no error, though literals end at a line feed. */
  lemma LineFeedStartsLiteral(ident: Identifies)
    requires !ident('"' as int, 0)
    ensures (var src: seq<byte> := ['"' as int, 10, 'a' as int, '"' as int];
             var t := Scan(ident, src, First(src));
             t.kind == STRING && t.from == 0 && t.to == 4 && t.after.cur.errors == 0)
  {
    hide Step;
    var src: seq<byte> := ['"' as int, 10, 'a' as int, '"' as int];
    AsciiStep(src, Cursor(0, 0, 1, 0, 0, 0));
    var l := First(src);
    LineFeedStep(src, l.cur);
    var l2 := Next(src, l);
    AsciiStep(src, l2.cur);
    var l3 := Next(src, l2);
    AsciiStep(src, l3.cur);
    var l4 := Next(src, l3);
    StepAtTheEnd(src, l4.cur);
    assert Skip(ident, src, l) == l;
    assert StringBody(src, l3) == l4;
  }

  lemma LineFeedStep(src: seq<byte>, c: Cursor)
    requires c.at + c.width < |src| && src[c.at + c.width] == 10
    ensures Step(src, c).ch == 10 && Step(src, c).cur.at == c.at + c.width && Step(src, c).cur.width == 1
    ensures Step(src, c).cur.errors == c.errors
  {
    AsciiIsItself(src[c.at + c.width..]);
  }

  /** After an empty literal at the end of the source comes a string token without any text. */
  lemma EmptyLiteralIsFollowedByAnother(ident: Identifies)
    requires !ident('"' as int, 0)
    ensures (var src: seq<byte> := ['"' as int, '"' as int];
             var t := Scan(ident, src, First(src));
             var t2 := Scan(ident, src, t.after);
             t.kind == t2.kind == STRING && t.from == 0 && t.to == t2.from == t2.to == 2)
  {
    hide Step;
    var src: seq<byte> := ['"' as int, '"' as int];
    AsciiStep(src, Cursor(0, 0, 1, 0, 0, 0));
    var l := First(src);
    AsciiStep(src, l.cur);
    var l2 := Next(src, l);
    StepAtTheEnd(src, l2.cur);
    var l3 := Next(src, l2);
    assert Skip(ident, src, l) == l;
    var stale := Look('"' as int, l3.cur);
    assert TokenAt(ident, src, l) == (STRING, stale);
    assert Skip(ident, src, stale) == stale;
    StepAtTheEnd(src, l3.cur);
    var l4 := Next(src, stale);
    StepAtTheEnd(src, l4.cur);
    var l5 := Next(src, l4);
    assert StringBody(src, l5) == Fail(l5);
    StepAtTheEnd(src, Fail(l5).cur);
  }

  lemma StepAtTheEnd(src: seq<byte>, c: Cursor)
    requires c.at + c.width == |src|
    ensures Step(src, c).ch == EOF && Step(src, c).cur.at == |src| && Step(src, c).cur.width == 0
    ensures Step(src, c).cur.errors == c.errors
  {
  }
}
