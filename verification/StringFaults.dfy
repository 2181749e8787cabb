/**
 The errors counted for a string token, told from its characters: escapes that
 are none, characters that are none, and a missing quote at the end.
 */
module StringFaults {
  import opened Utf8
  import opened ScannerSpec
  import opened ScannerPositions
  import opened ScannerRuns
  import opened ScannerLocality
  import opened NumberTokens
  import opened TokenKinds

  // ----- escapes -----

  predicate OctalByte(b: int) {
    '0' as int <= b <= '7' as int
  }

  predicate HexByte(b: int) {
    '0' as int <= b <= '9' as int || 'a' as int <= b <= 'f' as int || 'A' as int <= b <= 'F' as int
  }

  predicate AllOctal(src: seq<byte>, i: nat, n: nat) {
    forall k | i <= k < i + n :: OctalByte(ByteAt(src, k))
  }

  predicate AllHex(src: seq<byte>, i: nat, n: nat) {
    forall k | i <= k < i + n :: HexByte(ByteAt(src, k))
  }

  /** The backslash at `p` begins an escape: one letter or sign, three octal digits, or a letter with two, four or eight
      hexadecimal digits. */
  predicate EscapeFits(src: seq<byte>, p: nat) {
    var b := ByteAt(src, p + 1);
    if OctalByte(b) then AllOctal(src, p + 1, 3)
    else if b == 'x' as int then AllHex(src, p + 2, 2)
    else if b == 'u' as int then AllHex(src, p + 2, 4)
    else if b == 'U' as int then AllHex(src, p + 2, 8)
    else
      b == 'a' as int || b == 'b' as int || b == 'f' as int || b == 'n' as int || b == 'r' as int ||
      b == 't' as int || b == 'v' as int || b == BACKSLASH || b == QUOTE
  }

  /** From `p` to `q`: the backslashes that begin no escape and the characters that are none. */
  function BodyFaults(src: seq<byte>, p: nat, q: nat): nat
    decreases |src| - p
  {
    if p >= q || p >= |src| || WidthAt(src, p) == 0 then 0
    else if src[p] as int == BACKSLASH then
      Count(!EscapeFits(src, p)) +
      BodyFaults(src, if ByteAt(src, p + 1) == QUOTE || ByteAt(src, p + 1) == BACKSLASH then p + 2 else p + 1, q)
    else Count(Strange(src, p)) + BodyFaults(src, p + WidthAt(src, p), q)
  }

  // ----- errors counted before do not matter -----

  /** Two looks at one place, one with `d` more errors. */
  predicate Shifted(l: Look, m: Look, d: int) {
    m.ch == l.ch && m.cur.at == l.cur.at && m.cur.width == l.cur.width && m.cur.errors == l.cur.errors + d
  }

  lemma NextShifts(src: seq<byte>, l: Look, m: Look, d: int)
    requires Shifted(l, m, d)
    ensures Shifted(Next(src, l), Next(src, m), d)
  {
    hide DecodeRune;
  }

  lemma {:induction false} DigitsShift(src: seq<byte>, l: Look, m: Look, base: int, n: nat, d: int)
    requires Shifted(l, m, d)
    ensures Shifted(EscapeDigits(src, l, base, n), EscapeDigits(src, m, base, n), d)
    decreases n
  {
    hide Next, DigitVal;
    if n > 0 && DigitVal(l.ch) < base {
      NextShifts(src, l, m, d);
      DigitsShift(src, Next(src, l), Next(src, m), base, n - 1, d);
    }
  }

  lemma EscapeShifts(src: seq<byte>, l: Look, m: Look, d: int)
    requires Shifted(l, m, d)
    ensures Shifted(Escape(src, l), Escape(src, m), d)
  {
    hide Next, EscapeDigits;
    NextShifts(src, l, m, d);
    var l2, m2 := Next(src, l), Next(src, m);
    NextShifts(src, l2, m2, d);
    DigitsShift(src, l2, m2, 8, 3, d);
    DigitsShift(src, Next(src, l2), Next(src, m2), 16, 2, d);
    DigitsShift(src, Next(src, l2), Next(src, m2), 16, 4, d);
    DigitsShift(src, Next(src, l2), Next(src, m2), 16, 8, d);
  }

  lemma {:induction false} BodyShifts(src: seq<byte>, l: Look, m: Look, d: int)
    requires Shifted(l, m, d)
    ensures Shifted(StringBody(src, l), StringBody(src, m), d)
    decreases Left(src, l)
  {
    hide Next, Escape;
    if l.ch == QUOTE || l.ch == 10 || l.ch < 0 {
    } else if l.ch == BACKSLASH {
      EscapeLeft(src, l);
      EscapeLeft(src, m);
      EscapeShifts(src, l, m, d);
      BodyShifts(src, Escape(src, l), Escape(src, m), d);
    } else {
      NextShrinks(src, l);
      NextShifts(src, l, m, d);
      BodyShifts(src, Next(src, l), Next(src, m), d);
    }
  }

  // ----- digits -----

  predicate AllDigits(src: seq<byte>, i: nat, n: nat, base: int) {
    if base == 8 then AllOctal(src, i, n) else AllHex(src, i, n)
  }

  predicate DigitByte(b: int, base: int) {
    if base == 8 then OctalByte(b) else HexByte(b)
  }

  lemma DigitOfByte(ch: int, base: int)
    requires base == 8 || base == 16
    ensures DigitVal(ch) < base <==> DigitByte(ch, base)
    ensures DigitByte(ch, base) ==> 0 < ch < RUNE_SELF && IsPlain(ch)
  {
  }

  /** Reading digits of an escape or reading them as plain characters differs by the error of there being too few. */
  lemma {:induction false} DigitsCount(src: seq<byte>, l: Look, base: int, n: nat)
    requires InSync(src, l) && (base == 8 || base == 16)
    ensures Shifted(StringBody(src, l), StringBody(src, EscapeDigits(src, l, base, n)),
                    Count(!AllDigits(src, l.cur.at, n, base)))
    decreases n
  {
    hide InSync, Next, DigitVal, StringBody, OctalByte, HexByte;
    SeesByte(src, l);
    DigitOfByte(l.ch, base);
    DigitOfByte(ByteAt(src, l.cur.at), base);
    if n > 0 && DigitVal(l.ch) < base {
      PastByte(src, l);
      DigitsCount(src, Next(src, l), base, n - 1);
      PlainStep(src, l);
      OneMoreDigit(src, l.cur.at, n, base);
    } else {
      BodyShifts(src, l, FailIf(l, n > 0), Count(n > 0));
      NoDigit(src, l.cur.at, n, base);
    }
  }

  lemma PlainStep(src: seq<byte>, l: Look)
    requires IsPlain(l.ch)
    ensures StringBody(src, l) == StringBody(src, Next(src, l))
  {
  }

  lemma OneMoreDigit(src: seq<byte>, i: nat, n: nat, base: int)
    requires n > 0 && DigitByte(ByteAt(src, i), base)
    ensures AllDigits(src, i, n, base) <==> AllDigits(src, i + 1, n - 1, base)
  {
    hide OctalByte, HexByte;
  }

  lemma NoDigit(src: seq<byte>, i: nat, n: nat, base: int)
    requires n > 0 ==> !DigitByte(ByteAt(src, i), base)
    ensures AllDigits(src, i, n, base) <==> n == 0
  {
    hide OctalByte, HexByte;
  }

  // ----- a body -----

  /** An escape, or a backslash by itself and an error. */
  lemma EscapeCounts(src: seq<byte>, l: Look)
    requires InSync(src, l) && l.ch == BACKSLASH
    requires Next(src, l).ch != QUOTE && Next(src, l).ch != BACKSLASH
    ensures Shifted(StringBody(src, Next(src, l)), StringBody(src, Escape(src, l)), Count(!EscapeFits(src, l.cur.at)))
  {
    hide InSync, Next, StringBody, EscapeDigits, AllOctal, AllHex;
    SeesByte(src, l);
    PastByte(src, l);
    var l2 := Next(src, l);
    SeesByte(src, l2);
    if SimpleEscape(l2.ch) {
      PlainStep(src, l2);
    } else if '0' as int <= l2.ch <= '7' as int {
      DigitsCount(src, l2, 8, 3);
    } else if l2.ch == 'x' as int || l2.ch == 'u' as int || l2.ch == 'U' as int {
      PastByte(src, l2);
      PlainStep(src, l2);
      DigitsCount(src, Next(src, l2), 16, if l2.ch == 'x' as int then 2 else if l2.ch == 'u' as int then 4 else 8);
    } else {
      BodyShifts(src, l2, Fail(l2), 1);
    }
  }

  lemma {:induction false} BodyCounts(src: seq<byte>, l: Look)
    requires InSync(src, l)
    ensures (var r := StringBody(src, l);
             && InSync(src, r) && l.cur.at <= r.cur.at
             && Reported(src, r) == Reported(src, l) + BodyFaults(src, l.cur.at, r.cur.at) + Count(r.ch != QUOTE))
    decreases Left(src, l)
  {
    hide InSync, Next, Escape, StringBody, EscapeFits, CharAt, WidthAt, Strange;
    SeesByte(src, l);
    SeesChar(src, l);
    var r := StringBody(src, l);
    BodyIsAt(src, l);
    if l.ch == QUOTE || l.ch == 10 || l.ch < 0 {
      BodyStopsAt(src, l);
    } else {
      WalkedNext(src, l);
      StepInSync(src, l);
      WithinSource(src, l);
      NextCounts(src, l);
      var l2 := Next(src, l);
      SeesByte(src, l2);
      if l.ch == BACKSLASH {
        PastByte(src, l);
        if l2.ch == QUOTE || l2.ch == BACKSLASH {
          PastByte(src, l2);
          SimpleStep(src, l);
          QuoteFits(src, l.cur.at);
          BodyCounts(src, Next(src, l2));
          BodyIsAt(src, Next(src, l2));
        } else {
          EscapeCounts(src, l);
          EscapeStep(src, l);
          BodyCounts(src, l2);
          ShiftReports(src, StringBody(src, l2), r, Count(!EscapeFits(src, l.cur.at)));
        }
      } else {
        PlainStep(src, l);
        BodyCounts(src, l2);
      }
    }
  }

  lemma QuoteFits(src: seq<byte>, p: nat)
    requires ByteAt(src, p + 1) == QUOTE || ByteAt(src, p + 1) == BACKSLASH
    ensures EscapeFits(src, p)
  {
  }

  lemma ShiftReports(src: seq<byte>, l: Look, m: Look, d: int)
    requires Shifted(l, m, d)
    ensures Reported(src, m) == Reported(src, l) + d
  {
    hide Strange;
  }

  lemma BodyIsAt(src: seq<byte>, l: Look)
    requires InSync(src, l)
    ensures InSync(src, StringBody(src, l)) && l.cur.at <= StringBody(src, l).cur.at
  {
    hide StringBody;
    PlainString(src, l);
    PlainForward(src, l, StringBody(src, l));
  }

  lemma BodyStopsAt(src: seq<byte>, l: Look)
    requires InSync(src, l) && (l.ch == QUOTE || l.ch == 10 || l.ch < 0)
    ensures Reported(src, StringBody(src, l)) == Reported(src, l) + Count(l.ch != QUOTE)
    ensures StringBody(src, l).cur.at == l.cur.at && StringBody(src, l).ch == l.ch
  {
    hide Strange;
  }

  lemma SimpleStep(src: seq<byte>, l: Look)
    requires l.ch == BACKSLASH && (Next(src, l).ch == QUOTE || Next(src, l).ch == BACKSLASH)
    ensures StringBody(src, l) == StringBody(src, Next(src, Next(src, l)))
  {
    hide Next;
    EscapeLeft(src, l);
    assert Escape(src, l) == Next(src, Next(src, l));
  }

  lemma EscapeStep(src: seq<byte>, l: Look)
    requires l.ch == BACKSLASH
    ensures StringBody(src, l) == StringBody(src, Escape(src, l))
  {
    hide Escape;
    EscapeLeft(src, l);
  }

  // ----- a string token -----

  /** Where a string that begins at `p` and is not empty has its body, the first character being passed over. */
  function BodyFrom(src: seq<byte>, p: nat): nat {
    p + 1 + WidthAt(src, p + 1)
  }

  /** The errors counted for a string are those of its first character, those of its body, and one if no quote ends
      it. */
  lemma StringCounts(ident: Identifies, src: seq<byte>, l: Look) returns (e: nat)
    requires InSync(src, l) && Scan(ident, src, l).kind == STRING && ByteAt(src, Scan(ident, src, l).from) == QUOTE
    requires !ident(QUOTE, 0) && ByteAt(src, Scan(ident, src, l).from + 1) != QUOTE
    ensures (var t := Scan(ident, src, l);
             && t.from < BodyFrom(src, t.from) <= e && BodyTo(src, BodyFrom(src, t.from), e)
             && t.to == EndOfBody(src, e)
             && Reported(src, t.after) ==
                Reported(src, Skip(ident, src, l)) + Count(Strange(src, t.from + 1)) +
                BodyFaults(src, BodyFrom(src, t.from), e) + Count(ByteAt(src, e) != QUOTE))
  {
    hide InSync, Skip, Next, StringBody, BodyFaults, Strange, CharAt, WidthAt, BodyTo, NumberToken, IdentBody;
    SkipIsGap(ident, src, l);
    var m := Skip(ident, src, l);
    SeesByte(src, m);
    PastByte(src, m);
    var l2 := Next(src, m);
    SeesByte(src, l2);
    SeesChar(src, l2);
    StepInSync(src, l2);
    WalkedNext(src, l2);
    WithinSource(src, l2);
    NextCounts(src, l2);
    var l3 := Next(src, l2);
    BodyCounts(src, l3);
    BodyEnds(src, l3);
    var b := StringBody(src, l3);
    e := b.cur.at;
    BodyIsAt(src, l3);
    BodyStops(src, l3.cur.at, e);
    SeesByte(src, b);
    WalkedNext(src, b);
    LastCounts(src, b);
  }

  /** Past a quote, a line feed, or the end. */
  lemma LastCounts(src: seq<byte>, b: Look)
    requires InSync(src, b) && (b.cur.at < |src| ==> src[b.cur.at] as int == QUOTE || src[b.cur.at] == 10)
    ensures Reported(src, Next(src, b)) == Reported(src, b) && Next(src, b).cur.at == EndOfBody(src, b.cur.at)
  {
    hide Next, Strange;
    SeesByte(src, b);
    if b.cur.at < |src| {
      PastByte(src, b);
    } else {
      AtTheEnd(src, b);
    }
  }

  lemma AtTheEnd(src: seq<byte>, b: Look)
    requires InSync(src, b) && b.cur.at == |src|
    ensures Reported(src, Next(src, b)) == Reported(src, b) && Next(src, b).cur.at == |src|
  {
    hide DecodeRune;
  }
}
