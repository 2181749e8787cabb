/**
 What a token is depends on its own characters: the same characters in another
 source, followed by one that cannot continue them, are the same token.
 */
module ScannerLocality {
  import opened Utf8
  import opened ScannerSpec
  import opened ScannerPositions
  import opened ScannerRuns

  // ----- whole characters -----

  lemma {:induction false} AlignedTrans(src: seq<byte>, p: nat, q: nat, r: nat)
    requires p <= q <= r <= |src| && Aligned(src, p, q) && Aligned(src, q, r)
    ensures Aligned(src, p, r)
    decreases q - p
  {
    hide DecodeRune;
    if p < q {
      AlignedTrans(src, p + DecodeRune(src[p..]).1, q, r);
    }
  }

  /** From `l` on the scanner came to `r`, character by character. */
  ghost predicate Walked(src: seq<byte>, l: Look, r: Look) {
    InSync(src, r) && l.cur.at <= r.cur.at && Aligned(src, l.cur.at, r.cur.at)
  }

  lemma WalkedTrans(src: seq<byte>, l: Look, m: Look, r: Look)
    requires Walked(src, l, m) && Walked(src, m, r)
    ensures Walked(src, l, r)
  {
    hide InSync, Aligned;
    WithinSource(src, m);
    WithinSource(src, r);
    AlignedTrans(src, l.cur.at, m.cur.at, r.cur.at);
  }

  lemma WithinSource(src: seq<byte>, l: Look)
    requires InSync(src, l)
    ensures l.cur.at + l.cur.width <= |src| && (l.ch >= 0 <==> l.cur.width > 0) &&
            (l.cur.width == 0 <==> l.cur.at == |src|)
  {
    if l.cur.width > 0 {
      AsciiIsItself(src[l.cur.at..]);
    }
  }

  lemma WalkedHere(src: seq<byte>, l: Look)
    requires InSync(src, l)
    ensures Walked(src, l, l)
  {
  }

  lemma WalkedFail(src: seq<byte>, l: Look, bad: bool)
    requires InSync(src, l)
    ensures Walked(src, l, FailIf(l, bad)) && InSync(src, FailIf(l, bad))
  {
    hide DecodeRune;
  }

  lemma WalkedNext(src: seq<byte>, l: Look)
    requires InSync(src, l)
    ensures Walked(src, l, Next(src, l)) && Next(src, l).cur.at == l.cur.at + l.cur.width
    ensures l.ch >= 0 ==> Left(src, Next(src, l)) < Left(src, l) && l.cur.at < Next(src, l).cur.at
  {
    hide DecodeRune;
    WithinSource(src, l);
    var n := l.cur.at + l.cur.width;
    if n < |src| {
      assert src[n..] != [];
      assert InSync(src, Next(src, l));
    }
    if l.cur.width > 0 {
      assert Aligned(src, n, n);
    }
  }

  /** A step, and then some more. */
  lemma WalkedOn(src: seq<byte>, l: Look, r: Look)
    requires InSync(src, l) && Walked(src, Next(src, l), r)
    ensures Walked(src, l, r) && Next(src, l).cur.at <= r.cur.at
  {
    hide Walked, InSync, Next;
    WalkedNext(src, l);
    WalkedTrans(src, l, Next(src, l), r);
    WalkedForward(src, Next(src, l), r);
  }

  lemma WalkedForward(src: seq<byte>, l: Look, r: Look)
    requires Walked(src, l, r)
    ensures l.cur.at <= r.cur.at && InSync(src, r)
  {
  }

  // ----- within a line -----

  /** From `l` to `r`, and no line feed between. */
  ghost predicate Plain(src: seq<byte>, l: Look, r: Look) {
    Walked(src, l, r) && forall k | l.cur.at <= k < r.cur.at :: src[k] != 10
  }

  lemma PlainForward(src: seq<byte>, l: Look, r: Look)
    requires Plain(src, l, r)
    ensures l.cur.at <= r.cur.at && InSync(src, r) && Walked(src, l, r)
  {
  }

  lemma PlainTrans(src: seq<byte>, l: Look, m: Look, r: Look)
    requires Plain(src, l, m) && Plain(src, m, r)
    ensures Plain(src, l, r)
  {
    hide Walked;
    WalkedTrans(src, l, m, r);
  }

  lemma PlainHere(src: seq<byte>, l: Look)
    requires InSync(src, l)
    ensures Plain(src, l, l)
  {
  }

  lemma PlainFail(src: seq<byte>, l: Look, bad: bool)
    requires InSync(src, l)
    ensures Plain(src, l, FailIf(l, bad)) && InSync(src, FailIf(l, bad))
  {
    hide Walked, InSync;
    WalkedFail(src, l, bad);
  }

  lemma PlainNext(src: seq<byte>, l: Look)
    requires InSync(src, l)
    ensures InSync(src, Next(src, l)) && Next(src, l).cur.at == l.cur.at + l.cur.width
    ensures l.ch != 10 ==> Plain(src, l, Next(src, l))
    ensures l.ch >= 0 ==> Left(src, Next(src, l)) < Left(src, l) && l.cur.at < Next(src, l).cur.at
  {
    WalkedNext(src, l);
    hide Walked, Next;
    if l.cur.width > 0 {
      AsciiIsItself(src[l.cur.at..]);
      assert forall k | l.cur.at <= k < l.cur.at + l.cur.width :: src[k] == src[l.cur.at..][k - l.cur.at];
    }
  }

  lemma PlainOn(src: seq<byte>, l: Look, r: Look)
    requires InSync(src, l) && l.ch != 10 && Plain(src, Next(src, l), r)
    ensures Plain(src, l, r) && Next(src, l).cur.at <= r.cur.at
  {
    hide Plain, InSync, Next;
    PlainNext(src, l);
    PlainTrans(src, l, Next(src, l), r);
    PlainForward(src, Next(src, l), r);
  }

  // ----- the parts of tokens -----

  lemma {:induction false} PlainIdent(ident: Identifies, src: seq<byte>, l: Look, i: nat)
    requires Ordinary(ident) && InSync(src, l)
    ensures Plain(src, l, IdentBody(ident, src, l, i))
    decreases Left(src, l)
  {
    hide Plain, InSync, Next;
    if ident(l.ch, i) && l.ch >= 0 {
      PlainNext(src, l);
      PlainForward(src, l, Next(src, l));
      PlainIdent(ident, src, Next(src, l), i + 1);
      PlainOn(src, l, IdentBody(ident, src, l, i));
    } else {
      PlainHere(src, l);
    }
  }

  lemma {:induction false} PlainDigits(src: seq<byte>, base: int, r: DigitRun)
    requires InSync(src, r.look)
    ensures Plain(src, r.look, Digits(src, base, r).look)
    decreases Left(src, r.look)
  {
    hide Plain, InSync, Next, InRun;
    var ch := r.look.ch;
    if InRun(base, ch) {
      RunIsPlain(base, ch);
      PlainNext(src, r.look);
      var r' := MoreDigits(src, base, r);
      PlainDigits(src, base, r');
      PlainOn(src, r.look, Digits(src, base, r).look);
    } else {
      PlainHere(src, r.look);
    }
  }

  lemma RunIsPlain(base: int, ch: int)
    requires InRun(base, ch)
    ensures ch >= 0 && ch != 10
  {
  }

  lemma PrefixIsPlain(ch: int)
    requires PrefixOf(ch) != Zero || StartsExponent(Lower(ch))
    ensures ch != 10
  {
  }

  /** A run of digits after one more character. */
  function MoreDigits(src: seq<byte>, base: int, r: DigitRun): DigitRun {
    var ch := r.look.ch;
    DigitRun(
      Next(src, r.look),
      if base <= 10 && ch != '_' as int && ch >= '0' as int + base && r.invalid == 0 then ch else r.invalid,
      r.digit || ch != '_' as int,
      r.sep || ch == '_' as int)
  }

  /** Where an integer part starts its digits, and its prefix. */
  function IntegerStart(src: seq<byte>, l: Look): (Prefix, DigitRun) {
    if l.ch == '0' as int then
      var l2 := Next(src, l);
      var prefix := PrefixOf(l2.ch);
      (prefix, DigitRun(if prefix == Zero then l2 else Next(src, l2), 0, prefix == Zero, false))
    else (NoPrefix, DigitRun(l, 0, false, false))
  }

  lemma IntegerSteps(src: seq<byte>, l: Look)
    ensures (var (prefix, run) := IntegerStart(src, l);
             var r := Digits(src, BaseOf(prefix), run);
             IntegerPart(src, l) ==
             if r.look.ch == '.' as int then (Number(prefix, r.(look := Next(src, r.look)), INT), true)
             else (Number(prefix, r, INT), false))
  {
  }

  lemma PlainIntegerStart(src: seq<byte>, l: Look)
    requires InSync(src, l)
    ensures Plain(src, l, IntegerStart(src, l).1.look)
    ensures l.ch == '0' as int ==> Next(src, l).cur.at <= IntegerStart(src, l).1.look.cur.at
  {
    hide Plain, InSync, Next, PrefixOf;
    if l.ch == '0' as int {
      var l2 := Next(src, l);
      PlainNext(src, l);
      PlainForward(src, l, l2);
      if PrefixOf(l2.ch) != Zero {
        PrefixIsPlain(l2.ch);
        PlainNext(src, l2);
        PlainOn(src, l, Next(src, l2));
      }
    } else {
      PlainHere(src, l);
    }
  }

  lemma PlainInteger(src: seq<byte>, l: Look)
    requires InSync(src, l)
    ensures (var (prefix, run) := IntegerStart(src, l);
             var r := Digits(src, BaseOf(prefix), run);
             Plain(src, run.look, r.look) && Plain(src, r.look, IntegerPart(src, l).0.run.look))
    ensures Plain(src, l, IntegerPart(src, l).0.run.look)
  {
    hide Plain, InSync, Next, Digits, IntegerStart;
    var (prefix, run) := IntegerStart(src, l);
    var r := Digits(src, BaseOf(prefix), run);
    IntegerSteps(src, l);
    PlainIntegerStart(src, l);
    PlainForward(src, l, run.look);
    PlainDigits(src, BaseOf(prefix), run);
    PlainForward(src, run.look, r.look);
    PlainNext(src, r.look);
    PlainHere(src, r.look);
    PlainTrans(src, run.look, r.look, IntegerPart(src, l).0.run.look);
    PlainTrans(src, l, run.look, IntegerPart(src, l).0.run.look);
  }

  lemma PlainFraction(src: seq<byte>, n: Number)
    requires InSync(src, n.run.look)
    ensures Plain(src, n.run.look, FractionalPart(src, n).run.look)
  {
    hide Plain, InSync, Digits;
    var bad := n.prefix == Octal || n.prefix == Binary;
    var look := FailIf(n.run.look, bad);
    PlainFail(src, n.run.look, bad);
    PlainDigits(src, BaseOf(n.prefix), n.run.(look := look));
    PlainTrans(src, n.run.look, look, FractionalPart(src, n).run.look);
  }

  lemma PlainExponentDigits(src: seq<byte>, l: Look)
    requires InSync(src, l) && l.ch != 10
    ensures (var l2 := Next(src, l);
             var l3 := if l2.ch == '+' as int || l2.ch == '-' as int then Next(src, l2) else l2;
             Plain(src, l2, l3) && Plain(src, l3, ExponentDigits(src, l).look))
    ensures Plain(src, Next(src, l), ExponentDigits(src, l).look)
    ensures Plain(src, l, ExponentDigits(src, l).look) && Next(src, l).cur.at <= ExponentDigits(src, l).look.cur.at
  {
    hide Plain, InSync, Next, Digits;
    var l2 := Next(src, l);
    PlainNext(src, l);
    PlainForward(src, l, l2);
    PlainNext(src, l2);
    PlainHere(src, l2);
    var l3 := if l2.ch == '+' as int || l2.ch == '-' as int then Next(src, l2) else l2;
    PlainForward(src, l2, l3);
    var run := DigitRun(l3, 0, false, false);
    PlainDigits(src, 10, run);
    var r := Digits(src, 10, run);
    PlainForward(src, l3, r.look);
    PlainFail(src, r.look, !r.digit);
    PlainTrans(src, l3, r.look, ExponentDigits(src, l).look);
    PlainTrans(src, l2, l3, ExponentDigits(src, l).look);
    PlainOn(src, l, ExponentDigits(src, l).look);
  }

  lemma PlainExponent(src: seq<byte>, n: Number)
    requires InSync(src, n.run.look)
    ensures Plain(src, n.run.look, Exponent(src, n).run.look)
    ensures StartsExponent(Lower(n.run.look.ch)) ==> Next(src, n.run.look).cur.at <= Exponent(src, n).run.look.cur.at
  {
    hide Plain, InSync, ExponentDigits, BadExponent;
    var l := n.run.look;
    if StartsExponent(Lower(l.ch)) {
      var bad := BadExponent(n.prefix, Lower(l.ch));
      PlainFail(src, l, bad);
      PlainExponentDigits(src, FailIf(l, bad));
      PlainTrans(src, l, FailIf(l, bad), Exponent(src, n).run.look);
    } else {
      PlainFail(src, l, n.prefix == Hex && n.tok == FLOAT);
    }
  }

  lemma PlainNumberEnd(src: seq<byte>, start: nat, n: Number)
    requires InSync(src, n.run.look)
    ensures Plain(src, n.run.look, NumberEnd(src, start, n).1)
  {
    hide Plain, InSync, Exponent, BadSeparator;
    var l := n.run.look;
    var l2 := FailIf(l, !n.run.digit);
    PlainFail(src, l, !n.run.digit);
    var m := n.(run := n.run.(look := l2));
    PlainExponent(src, m);
    var n2 := Exponent(src, m);
    PlainForward(src, l2, n2.run.look);
    PlainTrans(src, l, l2, n2.run.look);
    var bad := n2.tok == INT && n2.run.invalid != 0;
    var l3 := FailIf(n2.run.look, bad);
    PlainFail(src, n2.run.look, bad);
    PlainTrans(src, l, n2.run.look, l3);
    PlainFail(src, l3, n2.run.sep && start <= l3.cur.at <= |src| && BadSeparator(src[start..l3.cur.at]));
    PlainTrans(src, l, l3, NumberEnd(src, start, n).1);
  }

  lemma PlainNumber(src: seq<byte>, start: nat, l: Look, seenDot: bool)
    requires InSync(src, l)
    ensures Plain(src, l, NumberToken(src, start, l, seenDot).1)
    ensures seenDot ==> Plain(src, FractionalPart(src, Number(NoPrefix, DigitRun(l, 0, false, false), FLOAT)).run.look,
                               NumberToken(src, start, l, seenDot).1)
    ensures !seenDot ==> Plain(src, IntegerPart(src, l).0.run.look, NumberToken(src, start, l, seenDot).1)
    ensures !seenDot && IntegerPart(src, l).1 ==>
              Plain(src, FractionalPart(src, IntegerPart(src, l).0).run.look, NumberToken(src, start, l, seenDot).1)
  {
    hide Plain, InSync, IntegerPart, FractionalPart, NumberEnd;
    var (n, dot) := if seenDot then (Number(NoPrefix, DigitRun(l, 0, false, false), FLOAT), true)
                    else IntegerPart(src, l);
    PlainHere(src, l);
    if !seenDot {
      PlainInteger(src, l);
      PlainForward(src, l, n.run.look);
    }
    PlainFraction(src, n);
    PlainForward(src, n.run.look, FractionalPart(src, n).run.look);
    PlainHere(src, n.run.look);
    var n2 := if dot then FractionalPart(src, n) else n;
    PlainNumberEnd(src, start, n2);
    PlainTrans(src, n.run.look, n2.run.look, NumberEnd(src, start, n2).1);
    PlainTrans(src, l, n.run.look, NumberEnd(src, start, n2).1);
  }

  lemma DigitIsPlain(ch: int, base: int)
    requires DigitVal(ch) < base <= 16
    ensures ch >= 0 && ch != 10
  {
  }

  lemma {:induction false} PlainEscapeDigits(src: seq<byte>, l: Look, base: int, n: nat)
    requires InSync(src, l) && base <= 16
    ensures Plain(src, l, EscapeDigits(src, l, base, n))
    decreases n
  {
    hide Plain, InSync, Next, DigitVal;
    if n > 0 && DigitVal(l.ch) < base {
      DigitIsPlain(l.ch, base);
      PlainNext(src, l);
      PlainForward(src, l, Next(src, l));
      PlainEscapeDigits(src, Next(src, l), base, n - 1);
      PlainOn(src, l, EscapeDigits(src, l, base, n));
    } else {
      PlainFail(src, l, n > 0);
    }
  }

  lemma PlainEscape(src: seq<byte>, l: Look)
    requires InSync(src, l) && l.ch == '\\' as int
    ensures Plain(src, l, Escape(src, l)) && Plain(src, Next(src, l), Escape(src, l))
    ensures (var l2 := Next(src, l);
             SimpleEscape(l2.ch) || l2.ch == 'x' as int || l2.ch == 'u' as int || l2.ch == 'U' as int ==>
               Plain(src, Next(src, l2), Escape(src, l)))
  {
    hide Plain, InSync, Next, EscapeDigits;
    var l2 := Next(src, l);
    PlainNext(src, l);
    PlainNext(src, l2);
    PlainHere(src, Next(src, l2));
    PlainFail(src, l2, true);
    PlainEscapeDigits(src, l2, 8, 3);
    PlainEscapeDigits(src, Next(src, l2), 16, 2);
    PlainEscapeDigits(src, Next(src, l2), 16, 4);
    PlainEscapeDigits(src, Next(src, l2), 16, 8);
    if SimpleEscape(l2.ch) || l2.ch == 'x' as int || l2.ch == 'u' as int || l2.ch == 'U' as int {
      PlainOn(src, l2, Escape(src, l));
    }
    PlainOn(src, l, Escape(src, l));
  }

  lemma {:induction false} PlainString(src: seq<byte>, l: Look)
    requires InSync(src, l)
    ensures Plain(src, l, StringBody(src, l))
    decreases Left(src, l)
  {
    hide Plain, InSync, Next, Escape;
    if l.ch == '"' as int {
      PlainHere(src, l);
    } else if l.ch == 10 || l.ch < 0 {
      PlainFail(src, l, true);
    } else if l.ch == '\\' as int {
      EscapeLeft(src, l);
      PlainEscape(src, l);
      PlainForward(src, l, Escape(src, l));
      PlainString(src, Escape(src, l));
      PlainTrans(src, l, Escape(src, l), StringBody(src, l));
    } else {
      PlainNext(src, l);
      PlainForward(src, l, Next(src, l));
      PlainString(src, Next(src, l));
      PlainOn(src, l, StringBody(src, l));
    }
  }

  lemma {:induction false} WalkedBlock(src: seq<byte>, l: Look, q: nat)
    requires InSync(src, l)
    ensures Walked(src, Next(src, l), BlockBody(src, l, q)) && Walked(src, l, BlockBody(src, l, q))
    decreases Rest(src, l)
  {
    hide Walked, InSync, Next;
    var l2 := Next(src, l);
    WalkedNext(src, l);
    WalkedForward(src, l, l2);
    if l2.ch < 0 {
      WalkedFail(src, l2, true);
    } else if l2.ch != '"' as int {
      WalkedBlock(src, l2, 0);
    } else if q == 2 {
      WalkedHere(src, l2);
    } else {
      WalkedBlock(src, l2, q + 1);
    }
    WalkedOn(src, l, BlockBody(src, l, q));
  }

  // ----- the same characters elsewhere -----

  /** Letters, digits and the underscore are the ASCII characters of identifiers; no identifier starts with a digit. */
  ghost predicate Ordinary(ident: Identifies) {
    forall ch, i | 0 <= ch < RUNE_SELF :: ident(ch, i) <==> NameChar(ch) && (i > 0 || !IsDecimal(ch))
  }

  predicate NameChar(ch: int) {
    ch == '_' as int || 'a' as int <= ch <= 'z' as int || 'A' as int <= ch <= 'Z' as int || IsDecimal(ch)
  }

  /** No token but a string goes on with this character. */
  predicate EndsToken(c: int) {
    0 <= c < RUNE_SELF && !NameChar(c) && c != '.' as int && c != '+' as int && c != '-' as int && c != '"' as int
  }

  /** `n` characters from `a` on of one source are found from `b` on in another, before one that ends tokens. */
  datatype Copy = Copy(one: seq<byte>, a: nat, two: seq<byte>, b: nat, n: nat) {
    ghost predicate Valid() {
      a + n <= |one| && b + n < |two| && one[a..a + n] == two[b..b + n] && EndsToken(two[b + n])
    }

    /** The scanner has come equally far in both. */
    ghost predicate Paired(l: Look, m: Look)
      requires Valid()
    {
      && InSync(one, l) && InSync(two, m) && a <= l.cur.at <= a + n && m.cur.at - b == l.cur.at - a
      && Aligned(one, l.cur.at, a + n)
    }
  }

  lemma SameCharacter(c: Copy, l: Look, m: Look)
    requires c.Valid() && c.Paired(l, m)
    ensures l.cur.at < c.a + c.n ==>
              l.ch == m.ch && l.cur.width == m.cur.width > 0 && l.ch >= 0 && l.cur.at + l.cur.width <= c.a + c.n
    ensures l.cur.at == c.a + c.n ==> m.ch == c.two[c.b + c.n] && EndsToken(m.ch)
  {
    hide DecodeRune;
    var p, q, e := l.cur.at, m.cur.at, c.a + c.n;
    if p < e {
      var w := DecodeRune(c.one[p..]).1;
      assert p + w <= e;
      var x := c.one[p..e];
      assert x == c.one[c.a..e][p - c.a..] == c.two[c.b..c.b + c.n][q - c.b..] == c.two[q..c.b + c.n];
      assert x <= c.one[p..] && x <= c.two[q..];
      WidthDecides(x, c.one[p..]);
      AsciiCompletesNothing(x, c.two[q..]);
    } else {
      AsciiIsItself(c.two[q..]);
    }
  }

  lemma PairedWithin(c: Copy, l: Look, m: Look)
    requires c.Valid() && c.Paired(l, m)
    ensures InSync(c.one, l) && InSync(c.two, m) && c.a <= l.cur.at <= c.a + c.n && m.cur.at - c.b == l.cur.at - c.a
  {
  }

  lemma PairedFail(c: Copy, l: Look, m: Look, bad: bool, worse: bool)
    requires c.Valid() && c.Paired(l, m)
    ensures c.Paired(FailIf(l, bad), FailIf(m, worse))
  {
    hide DecodeRune, Aligned;
  }

  /** Another character of the copy. */
  lemma PairedNext(c: Copy, l: Look, m: Look)
    requires c.Valid() && c.Paired(l, m) && l.ch >= 0 && Next(c.one, l).cur.at <= c.a + c.n
    ensures l.cur.at < c.a + c.n && m.ch == l.ch && c.Paired(Next(c.one, l), Next(c.two, m))
  {
    hide DecodeRune, EndsToken, Next;
    WithinSource(c.one, l);
    WalkedNext(c.one, l);
    WalkedForward(c.one, l, Next(c.one, l));
    SameCharacter(c, l, m);
    WalkedNext(c.two, m);
    WalkedForward(c.two, m, Next(c.two, m));
  }

  /** What ends tokens is no part of a number. */
  lemma EndsNumbers(ch: int, base: int)
    requires EndsToken(ch)
    ensures !InRun(base, ch) && !StartsExponent(Lower(ch)) && PrefixOf(ch) == Zero && !IsDecimal(ch)
  {
  }

  lemma {:induction false} SameIdent(ident: Identifies, c: Copy, l: Look, m: Look, i: nat)
    requires Ordinary(ident) && c.Valid() && c.Paired(l, m) && i > 0
    requires IdentBody(ident, c.one, l, i).cur.at <= c.a + c.n
    ensures c.Paired(IdentBody(ident, c.one, l, i), IdentBody(ident, c.two, m, i))
    decreases Left(c.one, l)
  {
    hide Next, InSync, Aligned, Copy.Paired, Walked;
    PairedWithin(c, l, m);
    SameCharacter(c, l, m);
    if ident(l.ch, i) && l.ch >= 0 {
      var l2 := Next(c.one, l);
      WalkedNext(c.one, l);
      WalkedForward(c.one, l, l2);
      PlainIdent(ident, c.one, l2, i + 1);
      WalkedForward(c.one, l2, IdentBody(ident, c.one, l2, i + 1));
      PairedNext(c, l, m);
      SameIdent(ident, c, l2, Next(c.two, m), i + 1);
    }
  }

  // ----- numbers elsewhere -----

  ghost predicate SameRun(c: Copy, r: DigitRun, s: DigitRun)
    requires c.Valid()
  {
    c.Paired(r.look, s.look) && r.invalid == s.invalid && r.digit == s.digit && r.sep == s.sep
  }

  ghost predicate SameNumber(c: Copy, n: Number, k: Number)
    requires c.Valid()
  {
    SameRun(c, n.run, k.run) && n.prefix == k.prefix && n.tok == k.tok
  }

  lemma {:induction false} SameDigits(c: Copy, base: int, r: DigitRun, s: DigitRun)
    requires c.Valid() && SameRun(c, r, s) && Digits(c.one, base, r).look.cur.at <= c.a + c.n
    ensures SameRun(c, Digits(c.one, base, r), Digits(c.two, base, s))
    decreases Left(c.one, r.look)
  {
    hide Next, InSync, Aligned, Copy.Paired, Walked, InRun, EndsToken;
    var l, m := r.look, s.look;
    PairedWithin(c, l, m);
    SameCharacter(c, l, m);
    if InRun(base, l.ch) {
      RunIsText(base, l.ch);
      WalkedNext(c.one, l);
      WalkedForward(c.one, l, Next(c.one, l));
      var r' := MoreDigits(c.one, base, r);
      PlainDigits(c.one, base, r');
      WalkedForward(c.one, r'.look, Digits(c.one, base, r').look);
      PairedNext(c, l, m);
      SameDigits(c, base, r', MoreDigits(c.two, base, s));
    } else if l.cur.at == c.a + c.n {
      EndsNumbers(m.ch, base);
    }
  }

  lemma SameIntegerStart(c: Copy, l: Look, m: Look)
    requires c.Valid() && c.Paired(l, m) && IntegerStart(c.one, l).1.look.cur.at <= c.a + c.n
    ensures IntegerStart(c.one, l).0 == IntegerStart(c.two, m).0
    ensures SameRun(c, IntegerStart(c.one, l).1, IntegerStart(c.two, m).1)
  {
    hide Next, InSync, Aligned, Copy.Paired, Walked;
    PairedWithin(c, l, m);
    SameCharacter(c, l, m);
    if l.ch == '0' as int {
      PlainIntegerStart(c.one, l);
      PairedNext(c, l, m);
      var l2, m2 := Next(c.one, l), Next(c.two, m);
      PairedWithin(c, l2, m2);
      SameCharacter(c, l2, m2);
      if PrefixOf(l2.ch) != Zero {
        PairedNext(c, l2, m2);
      }
    }
  }

  lemma SameInteger(c: Copy, l: Look, m: Look)
    requires c.Valid() && c.Paired(l, m) && IntegerPart(c.one, l).0.run.look.cur.at <= c.a + c.n
    ensures SameNumber(c, IntegerPart(c.one, l).0, IntegerPart(c.two, m).0)
    ensures IntegerPart(c.one, l).1 == IntegerPart(c.two, m).1
  {
    hide Next, InSync, Aligned, Copy.Paired, Walked, IntegerStart, IntegerPart, Digits;
    PairedWithin(c, l, m);
    var (prefix, run) := IntegerStart(c.one, l);
    var (prefix2, run2) := IntegerStart(c.two, m);
    var r, s := Digits(c.one, BaseOf(prefix), run), Digits(c.two, BaseOf(prefix), run2);
    PlainInteger(c.one, l);
    WalkedForward(c.one, run.look, r.look);
    WalkedForward(c.one, r.look, IntegerPart(c.one, l).0.run.look);
    SameIntegerStart(c, l, m);
    SameDigits(c, BaseOf(prefix), run, run2);
    IntegerSteps(c.one, l);
    IntegerSteps(c.two, m);
    PairedWithin(c, r.look, s.look);
    SameCharacter(c, r.look, s.look);
    if r.look.ch == '.' as int {
      PairedNext(c, r.look, s.look);
    }
  }

  lemma SameFraction(c: Copy, n: Number, k: Number)
    requires c.Valid() && SameNumber(c, n, k) && FractionalPart(c.one, n).run.look.cur.at <= c.a + c.n
    ensures SameNumber(c, FractionalPart(c.one, n), FractionalPart(c.two, k))
  {
    hide Digits, Copy.Paired;
    var bad := n.prefix == Octal || n.prefix == Binary;
    PairedFail(c, n.run.look, k.run.look, bad, bad);
    SameDigits(c, BaseOf(n.prefix), n.run.(look := FailIf(n.run.look, bad)), k.run.(look := FailIf(k.run.look, bad)));
  }

  lemma SameExponentDigits(c: Copy, l: Look, m: Look)
    requires c.Valid() && c.Paired(l, m) && l.ch > 10 && ExponentDigits(c.one, l).look.cur.at <= c.a + c.n
    ensures SameRun(c, ExponentDigits(c.one, l), ExponentDigits(c.two, m))
  {
    hide Next, InSync, Aligned, Copy.Paired, Walked, Digits;
    PairedWithin(c, l, m);
    PlainExponentDigits(c.one, l);
    PairedNext(c, l, m);
    var l2, m2 := Next(c.one, l), Next(c.two, m);
    var l3 := if l2.ch == '+' as int || l2.ch == '-' as int then Next(c.one, l2) else l2;
    var m3 := if m2.ch == '+' as int || m2.ch == '-' as int then Next(c.two, m2) else m2;
    WalkedForward(c.one, l3, ExponentDigits(c.one, l).look);
    PairedWithin(c, l2, m2);
    SameCharacter(c, l2, m2);
    if l2.ch == '+' as int || l2.ch == '-' as int {
      PairedNext(c, l2, m2);
    }
    var r, s := Digits(c.one, 10, DigitRun(l3, 0, false, false)), Digits(c.two, 10, DigitRun(m3, 0, false, false));
    SameDigits(c, 10, DigitRun(l3, 0, false, false), DigitRun(m3, 0, false, false));
    PairedFail(c, r.look, s.look, !r.digit, !s.digit);
  }

  lemma SameExponent(c: Copy, n: Number, k: Number)
    requires c.Valid() && SameNumber(c, n, k) && Exponent(c.one, n).run.look.cur.at <= c.a + c.n
    ensures SameNumber(c, Exponent(c.one, n), Exponent(c.two, k))
  {
    hide Next, InSync, Aligned, Copy.Paired, Walked, ExponentDigits, BadExponent;
    var l, m := n.run.look, k.run.look;
    var e := Lower(l.ch);
    PairedWithin(c, l, m);
    SameCharacter(c, l, m);
    if StartsExponent(e) {
      PlainExponent(c.one, n);
      PairedNext(c, l, m);
      var bad := BadExponent(n.prefix, e);
      PairedFail(c, l, m, bad, bad);
      SameExponentDigits(c, FailIf(l, bad), FailIf(m, bad));
    } else {
      PairedFail(c, l, m, n.prefix == Hex && n.tok == FLOAT, n.prefix == Hex && n.tok == FLOAT);
    }
  }

  lemma SameNumberEnd(c: Copy, start: nat, start2: nat, n: Number, k: Number)
    requires c.Valid() && SameNumber(c, n, k) && NumberEnd(c.one, start, n).1.cur.at <= c.a + c.n
    ensures NumberEnd(c.one, start, n).0 == NumberEnd(c.two, start2, k).0
    ensures c.Paired(NumberEnd(c.one, start, n).1, NumberEnd(c.two, start2, k).1)
  {
    hide Copy.Paired, Exponent, BadSeparator;
    var bad := !n.run.digit;
    PairedFail(c, n.run.look, k.run.look, bad, bad);
    var n2 := n.(run := n.run.(look := FailIf(n.run.look, bad)));
    var k2 := k.(run := k.run.(look := FailIf(k.run.look, bad)));
    SameExponent(c, n2, k2);
    var n3, k3 := Exponent(c.one, n2), Exponent(c.two, k2);
    var worse := n3.tok == INT && n3.run.invalid != 0;
    var l, m := FailIf(n3.run.look, worse), FailIf(k3.run.look, worse);
    PairedFail(c, n3.run.look, k3.run.look, worse, worse);
    PairedFail(c, l, m,
               n3.run.sep && start <= l.cur.at <= |c.one| && BadSeparator(c.one[start..l.cur.at]),
               k3.run.sep && start2 <= m.cur.at <= |c.two| && BadSeparator(c.two[start2..m.cur.at]));
  }

  lemma SameNumberToken(c: Copy, start: nat, start2: nat, l: Look, m: Look, seenDot: bool)
    requires c.Valid() && c.Paired(l, m) && NumberToken(c.one, start, l, seenDot).1.cur.at <= c.a + c.n
    ensures NumberToken(c.one, start, l, seenDot).0 == NumberToken(c.two, start2, m, seenDot).0
    ensures c.Paired(NumberToken(c.one, start, l, seenDot).1, NumberToken(c.two, start2, m, seenDot).1)
  {
    hide Copy.Paired, IntegerPart, FractionalPart, NumberEnd, Walked, InSync;
    PairedWithin(c, l, m);
    PlainNumber(c.one, start, l, seenDot);
    var end := NumberToken(c.one, start, l, seenDot).1;
    var n, k := Number(NoPrefix, DigitRun(l, 0, false, false), FLOAT),
                Number(NoPrefix, DigitRun(m, 0, false, false), FLOAT);
    var dot := seenDot;
    if !seenDot {
      WalkedForward(c.one, IntegerPart(c.one, l).0.run.look, end);
      SameInteger(c, l, m);
      n, dot := IntegerPart(c.one, l).0, IntegerPart(c.one, l).1;
      k := IntegerPart(c.two, m).0;
    }
    if dot {
      WalkedForward(c.one, FractionalPart(c.one, n).run.look, end);
      SameFraction(c, n, k);
      n, k := FractionalPart(c.one, n), FractionalPart(c.two, k);
    }
    SameNumberEnd(c, start, start2, n, k);
  }

  // ----- strings elsewhere -----

  lemma {:induction false} SameEscapeDigits(c: Copy, l: Look, m: Look, base: int, n: nat)
    requires c.Valid() && c.Paired(l, m) && EscapeDigits(c.one, l, base, n).cur.at < c.a + c.n && base <= 16
    ensures c.Paired(EscapeDigits(c.one, l, base, n), EscapeDigits(c.two, m, base, n))
    decreases n
  {
    hide Next, InSync, Aligned, Copy.Paired, Walked, EndsToken, DigitVal;
    PairedWithin(c, l, m);
    PlainEscapeDigits(c.one, l, base, n);
    WalkedForward(c.one, l, EscapeDigits(c.one, l, base, n));
    SameCharacter(c, l, m);
    if n > 0 && DigitVal(l.ch) < base {
      WalkedNext(c.one, l);
      WalkedForward(c.one, l, Next(c.one, l));
      PlainEscapeDigits(c.one, Next(c.one, l), base, n - 1);
      WalkedForward(c.one, Next(c.one, l), EscapeDigits(c.one, l, base, n));
      PairedNext(c, l, m);
      SameEscapeDigits(c, Next(c.one, l), Next(c.two, m), base, n - 1);
    } else {
      PairedFail(c, l, m, n > 0, n > 0);
    }
  }

  lemma SameEscape(c: Copy, l: Look, m: Look)
    requires c.Valid() && c.Paired(l, m) && l.ch == '\\' as int && Escape(c.one, l).cur.at < c.a + c.n
    ensures c.Paired(Escape(c.one, l), Escape(c.two, m))
  {
    hide Next, InSync, Aligned, Copy.Paired, Walked, EndsToken, EscapeDigits;
    PairedWithin(c, l, m);
    PlainEscape(c.one, l);
    var l2, m2 := Next(c.one, l), Next(c.two, m);
    WalkedForward(c.one, l2, Escape(c.one, l));
    PairedNext(c, l, m);
    PairedWithin(c, l2, m2);
    SameCharacter(c, l2, m2);
    if SimpleEscape(l2.ch) || l2.ch == 'x' as int || l2.ch == 'u' as int || l2.ch == 'U' as int {
      WalkedForward(c.one, Next(c.one, l2), Escape(c.one, l));
      PairedNext(c, l2, m2);
      if l2.ch == 'x' as int {
        SameEscapeDigits(c, Next(c.one, l2), Next(c.two, m2), 16, 2);
      } else if l2.ch == 'u' as int {
        SameEscapeDigits(c, Next(c.one, l2), Next(c.two, m2), 16, 4);
      } else if l2.ch == 'U' as int {
        SameEscapeDigits(c, Next(c.one, l2), Next(c.two, m2), 16, 8);
      }
    } else if '0' as int <= l2.ch <= '7' as int {
      SameEscapeDigits(c, l2, m2, 8, 3);
    } else {
      PairedFail(c, l2, m2, true, true);
    }
  }

  lemma {:induction false} SameString(c: Copy, l: Look, m: Look)
    requires c.Valid() && c.Paired(l, m) && StringBody(c.one, l).cur.at < c.a + c.n
    ensures c.Paired(StringBody(c.one, l), StringBody(c.two, m))
    decreases Left(c.one, l)
  {
    hide Next, InSync, Aligned, Copy.Paired, Walked, EndsToken, Escape;
    PairedWithin(c, l, m);
    PlainString(c.one, l);
    WalkedForward(c.one, l, StringBody(c.one, l));
    SameCharacter(c, l, m);
    if l.ch == '"' as int {
    } else if l.ch == 10 || l.ch < 0 {
      PairedFail(c, l, m, true, true);
    } else if l.ch == '\\' as int {
      EscapeLeft(c.one, l);
      EscapeLeft(c.two, m);
      PlainEscape(c.one, l);
      WalkedForward(c.one, l, Escape(c.one, l));
      PlainString(c.one, Escape(c.one, l));
      WalkedForward(c.one, Escape(c.one, l), StringBody(c.one, l));
      SameEscape(c, l, m);
      SameString(c, Escape(c.one, l), Escape(c.two, m));
    } else {
      WalkedNext(c.one, l);
      WalkedForward(c.one, l, Next(c.one, l));
      PlainString(c.one, Next(c.one, l));
      WalkedForward(c.one, Next(c.one, l), StringBody(c.one, l));
      PairedNext(c, l, m);
      SameString(c, Next(c.one, l), Next(c.two, m));
    }
  }

  lemma {:induction false} SameBlock(c: Copy, l: Look, m: Look, q: nat)
    requires c.Valid() && c.Paired(l, m) && l.ch >= 0 && BlockBody(c.one, l, q).cur.at < c.a + c.n
    ensures c.Paired(BlockBody(c.one, l, q), BlockBody(c.two, m, q))
    decreases Rest(c.one, l)
  {
    hide Next, InSync, Aligned, Copy.Paired, Walked, EndsToken;
    PairedWithin(c, l, m);
    WalkedBlock(c.one, l, q);
    var l2, m2 := Next(c.one, l), Next(c.two, m);
    WalkedForward(c.one, l2, BlockBody(c.one, l, q));
    PairedNext(c, l, m);
    PairedWithin(c, l2, m2);
    SameCharacter(c, l2, m2);
    if l2.ch < 0 {
      PairedFail(c, l2, m2, true, true);
    } else if l2.ch != '"' as int {
      SameBlock(c, l2, m2, 0);
    } else if q != 2 {
      SameBlock(c, l2, m2, q + 1);
    }
  }

  lemma LeftOver(src: seq<byte>, l: Look, ch: int)
    requires InSync(src, l) && l.ch != ch
    ensures !InSync(src, Look(ch, l.cur))
  {
    hide DecodeRune;
  }

  /** A body before the last character of the copy. */
  lemma EndsBefore(c: Copy, l: Look, body: Look)
    requires c.Valid() && c.a + c.n < |c.one| && Walked(c.one, l, body) && Next(c.one, body).cur.at == c.a + c.n
    ensures l.cur.at <= body.cur.at < c.a + c.n && body.ch >= 0
  {
    hide InSync, Aligned;
    WithinSource(c.one, body);
  }

  lemma PairedTwice(c: Copy, l: Look, m: Look)
    requires c.Valid() && c.Paired(l, m) && l.ch >= 0 && c.a + c.n < |c.one|
    requires Next(c.one, Next(c.one, l)).cur.at <= c.a + c.n
    ensures Next(c.two, m).ch == Next(c.one, l).ch
    ensures c.Paired(Next(c.one, Next(c.one, l)), Next(c.two, Next(c.two, m)))
  {
    hide Next, InSync, Aligned, Copy.Paired, Walked;
    var l2 := Next(c.one, l);
    PairedWithin(c, l, m);
    WalkedNext(c.one, l);
    WalkedForward(c.one, l, l2);
    WalkedNext(c.one, l2);
    WithinSource(c.one, l2);
    PairedNext(c, l, m);
    PairedNext(c, l2, Next(c.two, m));
  }

  lemma SameQuoted(c: Copy, l: Look, m: Look)
    requires c.Valid() && c.Paired(l, m) && l.ch == '"' as int && c.a + c.n < |c.one|
    requires QuotedToken(c.one, l).1.cur.at == c.a + c.n && InSync(c.one, QuotedToken(c.one, l).1)
    ensures QuotedToken(c.one, l).0 == QuotedToken(c.two, m).0
    ensures c.Paired(QuotedToken(c.one, l).1, QuotedToken(c.two, m).1)
  {
    hide Next, InSync, Aligned, Copy.Paired, Walked, EndsToken, StringBody, BlockBody;
    PairedWithin(c, l, m);
    var l2, m2 := Next(c.one, l), Next(c.two, m);
    WalkedNext(c.one, l);
    WalkedForward(c.one, l, l2);
    var l3, m3 := Next(c.one, l2), Next(c.two, m2);
    WalkedNext(c.one, l2);
    WalkedForward(c.one, l2, l3);
    if l2.ch != '"' as int {
      var body := StringBody(c.one, l3);
      PlainString(c.one, l3);
      EndsBefore(c, l3, body);
      PairedTwice(c, l, m);
      SameString(c, l3, m3);
      PairedNext(c, body, StringBody(c.two, m3));
    } else if l3.ch == '"' as int {
      var body := BlockBody(c.one, l3, 0);
      WalkedBlock(c.one, l3, 0);
      EndsBefore(c, l3, body);
      PairedTwice(c, l, m);
      PairedWithin(c, l3, m3);
      SameCharacter(c, l3, m3);
      SameBlock(c, l3, m3, 0);
      PairedNext(c, body, BlockBody(c.two, m3, 0));
    } else {
      LeftOver(c.one, l3, l.ch);
    }
  }

  lemma DigitAfterDot(src: seq<byte>, start: nat, l: Look)
    requires InSync(src, l) && IsDecimal(l.ch)
    ensures l.cur.at < NumberToken(src, start, l, true).1.cur.at
  {
    hide Next, InSync, Walked, NumberEnd;
    var n := Number(NoPrefix, DigitRun(l, 0, false, false), FLOAT);
    PlainNumber(src, start, l, true);
    WalkedForward(src, FractionalPart(src, n).run.look, NumberToken(src, start, l, true).1);
    WalkedNext(src, l);
    WalkedForward(src, l, Next(src, l));
    var more := MoreDigits(src, 10, n.run);
    PlainDigits(src, 10, more);
    WalkedForward(src, more.look, Digits(src, 10, more).look);
    assert FractionalPart(src, n).run == Digits(src, 10, more);
  }

  // ----- tokens elsewhere -----

  predicate IsLiteral(kind: int) {
    kind == IDENT || kind == INT || kind == FLOAT || kind == STRING || kind == BLOCK_STRING
  }

  /** A name or literal that is no empty string is the same token wherever its characters are, before one that
      ends tokens. */
  lemma SameToken(ident: Identifies, c: Copy, l: Look, m: Look)
    requires Ordinary(ident) && c.Valid() && c.n > 0 && c.Paired(l, m) && l.cur.at == c.a && c.a + c.n < |c.one|
    requires (var (kind, r) := TokenAt(ident, c.one, l);
              IsLiteral(kind) && r.cur.at == c.a + c.n && InSync(c.one, r))
    ensures TokenAt(ident, c.two, m).0 == TokenAt(ident, c.one, l).0
    ensures c.Paired(TokenAt(ident, c.one, l).1, TokenAt(ident, c.two, m).1)
  {
    hide Next, InSync, Aligned, Copy.Paired, Walked, EndsToken, IdentBody, NumberToken, QuotedToken;
    PairedWithin(c, l, m);
    SameCharacter(c, l, m);
    WithinSource(c.one, l);
    var l2, m2 := Next(c.one, l), Next(c.two, m);
    WalkedNext(c.one, l);
    WalkedForward(c.one, l, l2);
    if ident(l.ch, 0) {
      PlainIdent(ident, c.one, l2, 1);
      WalkedForward(c.one, l2, IdentBody(ident, c.one, l2, 1));
      PairedNext(c, l, m);
      SameIdent(ident, c, l2, m2, 1);
    } else if IsDecimal(l.ch) {
      SameNumberToken(c, l.cur.at, m.cur.at, l, m, false);
    } else if l.ch == '"' as int {
      SameQuoted(c, l, m);
    } else {
      PlainNumber(c.one, l.cur.at, l2, true);
      WalkedForward(c.one, l2, NumberToken(c.one, l.cur.at, l2, true).1);
      PairedNext(c, l, m);
      PairedWithin(c, l2, m2);
      SameCharacter(c, l2, m2);
      DigitAfterDot(c.one, l.cur.at, l2);
      SameNumberToken(c, l.cur.at, m.cur.at, l2, m2, true);
    }
  }

  lemma WalkedQuoted(src: seq<byte>, l: Look)
    requires InSync(src, l) && InSync(src, QuotedToken(src, l).1) && l.ch == '"' as int
    ensures Walked(src, l, QuotedToken(src, l).1)
  {
    hide Next, InSync, Aligned, Walked, StringBody, BlockBody;
    var l2 := Next(src, l);
    WalkedNext(src, l);
    WalkedForward(src, l, l2);
    var l3 := Next(src, l2);
    WalkedNext(src, l2);
    WalkedForward(src, l2, l3);
    if l2.ch != '"' as int {
      PlainString(src, l3);
      WalkedThen(src, l3, StringBody(src, l3));
      WalkedOn(src, l2, QuotedToken(src, l).1);
      WalkedOn(src, l, QuotedToken(src, l).1);
    } else if l3.ch == '"' as int {
      WalkedBlock(src, l3, 0);
      WalkedThen(src, l3, BlockBody(src, l3, 0));
      WalkedOn(src, l2, QuotedToken(src, l).1);
      WalkedOn(src, l, QuotedToken(src, l).1);
    } else {
      LeftOver(src, l3, l.ch);
    }
  }

  lemma WalkedThen(src: seq<byte>, l: Look, r: Look)
    requires InSync(src, l) && Walked(src, l, r)
    ensures Walked(src, l, Next(src, r))
  {
    hide InSync, Aligned, Next, Walked;
    WalkedForward(src, l, r);
    WalkedNext(src, r);
    WalkedTrans(src, l, r, Next(src, r));
  }

  lemma WalkedToken(ident: Identifies, src: seq<byte>, l: Look)
    requires Ordinary(ident) && InSync(src, l)
    requires IsLiteral(TokenAt(ident, src, l).0) && InSync(src, TokenAt(ident, src, l).1)
    ensures Walked(src, l, TokenAt(ident, src, l).1)
  {
    hide Next, InSync, Aligned, Walked, IdentBody, NumberToken, QuotedToken;
    var l2 := Next(src, l);
    WalkedNext(src, l);
    WalkedForward(src, l, l2);
    if ident(l.ch, 0) {
      PlainIdent(ident, src, l2, 1);
      WalkedOn(src, l, TokenAt(ident, src, l).1);
    } else if IsDecimal(l.ch) {
      PlainNumber(src, l.cur.at, l, false);
    } else if l.ch == '"' as int {
      WalkedQuoted(src, l);
    } else {
      PlainNumber(src, l.cur.at, l2, true);
      WalkedOn(src, l, TokenAt(ident, src, l).1);
    }
  }

  // ----- lexemes -----

  /** A name, a number or a string that is found at `l`, is not empty, and does not run into the end of the source. */
  ghost predicate FoundAt(ident: Identifies, src: seq<byte>, l: Look, kind: int, text: seq<byte>) {
    && InSync(src, l)
    && var (k, r) := TokenAt(ident, src, l);
       && k == kind && IsLiteral(k) && InSync(src, r)
       && l.cur.at < r.cur.at < |src| && src[l.cur.at..r.cur.at] == text
  }

  /** Some source has this token. */
  ghost predicate Lexeme(ident: Identifies, kind: int, text: seq<byte>) {
    exists src, l :: FoundAt(ident, src, l, kind, text)
  }

  /** Every source that has the same characters, then one that ends tokens, has this token there. */
  lemma LexemeAnywhere(ident: Identifies, kind: int, text: seq<byte>, src: seq<byte>, m: Look)
    requires Ordinary(ident) && Lexeme(ident, kind, text) && InSync(src, m)
    requires m.cur.at + |text| < |src| && src[m.cur.at..m.cur.at + |text|] == text && EndsToken(src[m.cur.at + |text|])
    ensures (var (k, r) := TokenAt(ident, src, m);
             k == kind && r.cur.at == m.cur.at + |text| && InSync(src, r))
  {
    hide InSync, Aligned, Walked, TokenAt, EndsToken;
    var one, l :| FoundAt(ident, one, l, kind, text);
    var r := TokenAt(ident, one, l).1;
    WalkedToken(ident, one, l);
    var c := Copy(one, l.cur.at, src, m.cur.at, |text|);
    PairedAtFirst(c, l, m, r);
    SameToken(ident, c, l, m);
    PairedWithin(c, r, TokenAt(ident, src, m).1);
  }

  lemma PairedAtFirst(c: Copy, l: Look, m: Look, r: Look)
    requires c.Valid() && InSync(c.one, l) && InSync(c.two, m) && l.cur.at == c.a && m.cur.at == c.b
    requires Walked(c.one, l, r) && r.cur.at == c.a + c.n
    ensures c.Paired(l, m)
  {
    hide InSync, Aligned;
  }
}
