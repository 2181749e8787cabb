/**
 What a number token is, told from the bytes of its text alone: how far it
 reaches, whether it is an integer, and what is wrong with it.
 */
module NumberTokens {
  import opened Utf8
  import opened ScannerSpec
  import opened ScannerPositions
  import opened ScannerRuns
  import opened ScannerLocality

  // ----- the text of a number -----

  predicate RunByte(b: int, hex: bool) {
    b == '_' as int || '0' as int <= b <= '9' as int ||
    (hex && ('a' as int <= b <= 'f' as int || 'A' as int <= b <= 'F' as int))
  }

  predicate HexLetter(b: int) {
    b == 'x' as int || b == 'X' as int
  }

  predicate OctalOrBinaryLetter(b: int) {
    b == 'o' as int || b == 'O' as int || b == 'b' as int || b == 'B' as int
  }

  predicate DecimalExponent(b: int) {
    b == 'e' as int || b == 'E' as int
  }

  predicate BinaryExponent(b: int) {
    b == 'p' as int || b == 'P' as int
  }

  predicate IsSign(b: int) {
    b == '+' as int || b == '-' as int
  }

  predicate IsHexadecimal(src: seq<byte>, start: nat, end: nat) {
    start + 2 <= end <= |src| && src[start] as int == '0' as int && HexLetter(src[start + 1])
  }

  predicate IsOctalOrBinary(src: seq<byte>, start: nat, end: nat) {
    start + 2 <= end <= |src| && src[start] as int == '0' as int && OctalOrBinaryLetter(src[start + 1])
  }

  /** Where the digits begin. */
  function DigitsFrom(src: seq<byte>, start: nat, end: nat): nat {
    if IsHexadecimal(src, start, end) || IsOctalOrBinary(src, start, end) then start + 2 else start
  }

  /** Where the digits of the exponent begin, its letter being at `exp`. */
  function ExponentFrom(src: seq<byte>, exp: nat, end: nat): nat {
    if exp + 1 < end <= |src| && IsSign(src[exp + 1]) then exp + 2 else exp + 1
  }

  predicate Run(src: seq<byte>, i: nat, j: nat, hex: bool) {
    i <= j <= |src| && forall k :: i <= k < j ==> RunByte(src[k], hex)
  }

  /** From `start` to `end` there is a number: digits up to `point`, from there to `exp` a point and more digits, and
      from there on an exponent. */
  ghost predicate NumberSpan(src: seq<byte>, start: nat, point: nat, exp: nat, end: nat) {
    var hex := IsHexadecimal(src, start, end);
    && start <= point <= exp <= end <= |src|
    && Run(src, DigitsFrom(src, start, end), point, hex)
    && (point < exp ==> src[point] as int == '.' as int && Run(src, point + 1, exp, hex))
    && (exp < end ==>
          && ((DecimalExponent(src[exp]) && !hex) || BinaryExponent(src[exp]))
          && Run(src, ExponentFrom(src, exp, end), end, false))
  }

  /** The byte at `p`, or -1 behind the last. */
  function ByteAt(src: seq<byte>, p: nat): int {
    if p < |src| then src[p] else -1
  }

  /** What follows does not go on with the number. */
  ghost predicate Longest(src: seq<byte>, start: nat, point: nat, exp: nat, end: nat) {
    var b := ByteAt(src, end);
    if exp < end then !RunByte(b, false) && (end == exp + 1 ==> !IsSign(b))
    else
      && !RunByte(b, IsHexadecimal(src, start, end)) && !DecimalExponent(b) && !BinaryExponent(b)
      && (point == exp ==> b != '.' as int)
      && (end == start + 1 && ByteAt(src, start) == '0' as int ==> !HexLetter(b) && !OctalOrBinaryLetter(b))
  }

  // ----- characters and bytes -----

  lemma SeesByte(src: seq<byte>, l: Look)
    requires InSync(src, l)
    ensures l.cur.at <= |src|
    ensures 0 <= l.ch < RUNE_SELF || 0 <= ByteAt(src, l.cur.at) < RUNE_SELF || l.ch < 0 ==>
              l.ch == ByteAt(src, l.cur.at) && l.cur.width == if l.ch < 0 then 0 else 1
    ensures l.ch >= 0 ==> l.cur.at < |src|
  {
    if l.cur.at < |src| {
      AsciiIsItself(src[l.cur.at..]);
    }
  }

  /** An error is counted when a character is read that is none, or zero. */
  predicate Strange(src: seq<byte>, p: nat) {
    p < |src| && (DecodeRune(src[p..]) == (RUNE_ERROR, 1) || DecodeRune(src[p..]).0 == 0)
  }

  /** The errors counted before the character looked at was read. */
  function Reported(src: seq<byte>, l: Look): int {
    l.cur.errors - if Strange(src, l.cur.at) then 1 else 0
  }

  /** Past a character that a number may have. */
  lemma PastByte(src: seq<byte>, l: Look)
    requires InSync(src, l) && 0 < ByteAt(src, l.cur.at) < RUNE_SELF
    ensures (var r := Next(src, l);
             InSync(src, r) && r.cur.at == l.cur.at + 1 && Reported(src, r) == Reported(src, l) &&
             Left(src, r) < Left(src, l))
  {
    SeesByte(src, l);
    WalkedNext(src, l);
    AsciiIsItself(src[l.cur.at..]);
    NextCounts(src, l);
  }

  lemma NextCounts(src: seq<byte>, l: Look)
    requires l.cur.at + l.cur.width <= |src|
    ensures Reported(src, Next(src, l)) == l.cur.errors
  {
    hide DecodeRune;
  }

  // ----- runs of digits -----

  ghost predicate DigitsRead(src: seq<byte>, base: int, r: DigitRun, r': DigitRun) {
    var i, j := r.look.cur.at, r'.look.cur.at;
    && InSync(src, r'.look) && i <= j && Run(src, i, j, base > 10)
    && !RunByte(ByteAt(src, j), base > 10)
    && (r'.digit <==> r.digit || exists k :: i <= k < j && src[k] as int != '_' as int)
    && (r'.sep <==> r.sep || exists k :: i <= k < j && src[k] as int == '_' as int)
    && (r'.invalid != 0 <==> r.invalid != 0 || (base <= 10 && HasDigitFrom(src, i, j, base)))
    && Reported(src, r'.look) == Reported(src, r.look)
  }

  /** A decimal digit that the base does not have. */
  predicate HasDigitFrom(src: seq<byte>, i: nat, j: nat, base: int) {
    exists k :: i <= k < j <= |src| && src[k] as int != '_' as int && src[k] as int >= '0' as int + base
  }

  lemma InRunIsRunByte(base: int, ch: int)
    ensures InRun(base, ch) <==> RunByte(ch, base > 10)
    ensures InRun(base, ch) ==> 0 < ch < RUNE_SELF
  {
  }

  lemma {:induction false} DigitsAreRead(src: seq<byte>, base: int, r: DigitRun)
    requires InSync(src, r.look) && base >= 0
    ensures DigitsRead(src, base, r, Digits(src, base, r))
    decreases Left(src, r.look)
  {
    hide InSync, Next, InRun, Reported, RunByte;
    var ch, i := r.look.ch, r.look.cur.at;
    SeesByte(src, r.look);
    InRunIsRunByte(base, ch);
    InRunIsRunByte(base, ByteAt(src, i));
    if InRun(base, ch) {
      PastByte(src, r.look);
      DigitsAreRead(src, base, MoreDigits(src, base, r));
    }
  }

  // ----- what is wrong with a number -----

  /** There is a digit, not only separators and a point. */
  ghost predicate HasDigits(src: seq<byte>, i: nat, j: nat) {
    exists k :: i <= k < j <= |src| && src[k] as int != '_' as int && src[k] as int != '.' as int
  }

  ghost predicate HasSeparator(src: seq<byte>, i: nat, j: nat) {
    exists k :: i <= k < j <= |src| && src[k] as int == '_' as int
  }

  /** The digits that the text's prefix, or its leading zero, allows. */
  function Base(src: seq<byte>, start: nat, end: nat): nat {
    if IsHexadecimal(src, start, end) then 16
    else if IsOctalOrBinary(src, start, end) then
      (if src[start + 1] as int == 'o' as int || src[start + 1] as int == 'O' as int then 8 else 2)
    else if ByteAt(src, start) == '0' as int then 8 else 10
  }

  ghost predicate HasWrongDigit(src: seq<byte>, start: nat, end: nat) {
    Base(src, start, end) < 10 && HasDigitFrom(src, DigitsFrom(src, start, end), end, Base(src, start, end))
  }

  ghost predicate WrongExponent(src: seq<byte>, start: nat, exp: nat, end: nat)
    requires exp < end <= |src|
  {
    if DecimalExponent(src[exp]) then IsOctalOrBinary(src, start, end) else !IsHexadecimal(src, start, end)
  }

  function Count(bad: bool): nat {
    if bad then 1 else 0
  }

  /** The faults of a number: no digits, a point after an octal or binary prefix, an exponent that does not go with the
      prefix or has no digits, none after a hexadecimal point, a digit an integer's base does not have, and a separator
      that is not between digits. */
  ghost function Faults(src: seq<byte>, start: nat, point: nat, exp: nat, end: nat): nat
    requires start <= exp <= end <= |src|
  {
    Count(!HasDigits(src, DigitsFrom(src, start, end), exp)) +
    Count(point < exp && IsOctalOrBinary(src, start, end)) +
    (if exp < end
     then Count(WrongExponent(src, start, exp, end)) + Count(!HasDigits(src, ExponentFrom(src, exp, end), end))
     else Count(point < exp && IsHexadecimal(src, start, end))) +
    Count(point == end && HasWrongDigit(src, start, end)) +
    Count(BadSeparator(src[start..end]))
  }

  // ----- the digits before and behind the point -----

  /** What is known of a number when its digits before and behind the point have been read. */
  ghost predicate Mantissa(src: seq<byte>, start: nat, point: nat, exp: nat, n: Number) {
    var hex := IsHexadecimal(src, start, exp);
    && start <= point <= exp <= |src| && InSync(src, n.run.look) && n.run.look.cur.at == exp
    && (n.prefix == Hex <==> hex)
    && (n.prefix == Octal || n.prefix == Binary <==> IsOctalOrBinary(src, start, exp))
    && Run(src, DigitsFrom(src, start, exp), point, hex)
    && (point < exp ==> src[point] as int == '.' as int && Run(src, point + 1, exp, hex))
    && !RunByte(ByteAt(src, exp), hex) && (point == exp ==> ByteAt(src, exp) != '.' as int)
    && (exp == start + 1 && ByteAt(src, start) == '0' as int ==>
          !HexLetter(ByteAt(src, exp)) && !OctalOrBinaryLetter(ByteAt(src, exp)))
    && (n.run.digit <==> HasDigits(src, DigitsFrom(src, start, exp), exp))
    && (n.run.sep <==> HasSeparator(src, start, exp))
    && n.tok == (if point == exp then INT else FLOAT)
    && (point == exp ==> (n.run.invalid != 0 <==> HasWrongDigit(src, start, exp)))
  }

  predicate PrefixRead(first: int, second: int, prefix: Prefix) {
    && (prefix == NoPrefix <==> first != '0' as int)
    && (prefix == Hex <==> first == '0' as int && HexLetter(second))
    && (prefix == Octal <==> first == '0' as int && (second == 'o' as int || second == 'O' as int))
    && (prefix == Binary <==> first == '0' as int && (second == 'b' as int || second == 'B' as int))
  }

  /** The prefix read, and where the digits start. */
  ghost predicate StartRead(src: seq<byte>, start: nat, prefix: Prefix, run: DigitRun) {
    && InSync(src, run.look) && start < |src|
    && run == DigitRun(run.look, 0, prefix == Zero, false)
    && PrefixRead(ByteAt(src, start), ByteAt(src, start + 1), prefix)
    && run.look.cur.at == match prefix
                          case NoPrefix => start
                          case Zero => start + 1
                          case _ => start + 2
  }

  lemma PrefixOfByte(ch: int)
    ensures PrefixOf(ch) == Hex <==> HexLetter(ch)
    ensures PrefixOf(ch) == Octal <==> ch == 'o' as int || ch == 'O' as int
    ensures PrefixOf(ch) == Binary <==> ch == 'b' as int || ch == 'B' as int
    ensures PrefixOf(ch) != NoPrefix && (PrefixOf(ch) != Zero ==> 0 < ch < RUNE_SELF)
  {
  }

  lemma StartIsRead(src: seq<byte>, l: Look)
    requires InSync(src, l) && IsDecimal(l.ch)
    ensures (var (prefix, run) := IntegerStart(src, l);
             StartRead(src, l.cur.at, prefix, run) && Reported(src, run.look) == Reported(src, l))
  {
    hide InSync, Next, Reported, PrefixOf;
    SeesByte(src, l);
    if l.ch == '0' as int {
      PastByte(src, l);
      var l2 := Next(src, l);
      SeesByte(src, l2);
      PrefixOfByte(l2.ch);
      PrefixOfByte(ByteAt(src, l2.cur.at));
      if PrefixOf(l2.ch) != Zero {
        PastByte(src, l2);
      }
    }
  }

  /** Digits, and no point behind them. */
  lemma IntegerIsMantissa(src: seq<byte>, start: nat, prefix: Prefix, run: DigitRun, r: DigitRun)
    requires StartRead(src, start, prefix, run) && DigitsRead(src, BaseOf(prefix), run, r)
    requires ByteAt(src, r.look.cur.at) != '.' as int
    ensures Mantissa(src, start, r.look.cur.at, r.look.cur.at, Number(prefix, r, INT))
  {
    hide InSync, Reported;
  }

  /** Digits, a point and more digits. */
  lemma FractionIsMantissa(src: seq<byte>, start: nat, prefix: Prefix, run: DigitRun, r: DigitRun, r2: DigitRun,
                           r3: DigitRun)
    requires StartRead(src, start, prefix, run) && DigitsRead(src, BaseOf(prefix), run, r)
    requires ByteAt(src, r.look.cur.at) == '.' as int
    requires r2 == r.(look := r2.look) && r2.look.cur.at == r.look.cur.at + 1
    requires DigitsRead(src, BaseOf(prefix), r2, r3)
    ensures Mantissa(src, start, r.look.cur.at, r3.look.cur.at, Number(prefix, r3, FLOAT))
  {
    hide InSync, Reported;
  }

  // ----- the exponent -----

  lemma ExponentByte(ch: int)
    ensures StartsExponent(Lower(ch)) <==> DecimalExponent(ch) || BinaryExponent(ch)
    ensures DecimalExponent(ch) <==> Lower(ch) == 'e' as int
    ensures StartsExponent(Lower(ch)) ==> 0 < ch < RUNE_SELF
  {
  }

  lemma FailReports(src: seq<byte>, l: Look, bad: bool)
    requires InSync(src, l)
    ensures InSync(src, FailIf(l, bad)) && Reported(src, FailIf(l, bad)) == Reported(src, l) + Count(bad)
    ensures FailIf(l, bad).cur.at == l.cur.at && FailIf(l, bad).ch == l.ch
  {
    hide DecodeRune;
  }

  /** From an exponent's letter at `exp`. */
  lemma ExponentIsRead(src: seq<byte>, l: Look)
    requires InSync(src, l) && 0 < ByteAt(src, l.cur.at) < RUNE_SELF
    ensures (var r, exp := ExponentDigits(src, l), l.cur.at;
             var end := r.look.cur.at;
             && InSync(src, r.look) && exp < end <= |src|
             && Run(src, ExponentFrom(src, exp, end), end, false)
             && !RunByte(ByteAt(src, end), false) && (end == exp + 1 ==> !IsSign(ByteAt(src, end)))
             && (r.digit <==> HasDigits(src, ExponentFrom(src, exp, end), end))
             && (r.sep <==> HasSeparator(src, ExponentFrom(src, exp, end), end))
             && Reported(src, r.look) == Reported(src, l) + Count(!r.digit))
  {
    hide InSync, Reported, Next;
    var l2 := Next(src, l);
    PastByte(src, l);
    SeesByte(src, l2);
    var l3 := if l2.ch == '+' as int || l2.ch == '-' as int then Next(src, l2) else l2;
    if IsSign(l2.ch) {
      PastByte(src, l2);
    }
    var run := DigitRun(l3, 0, false, false);
    DigitsAreRead(src, 10, run);
    var r := Digits(src, 10, run);
    FailReports(src, r.look, !r.digit);
    SeesByte(src, r.look);
  }

  // ----- the whole -----

  /** The digits are followed by no exponent. */
  lemma EndsWithout(src: seq<byte>, start: nat, point: nat, exp: nat, n: Number)
    requires Mantissa(src, start, point, exp, n)
    requires !DecimalExponent(ByteAt(src, exp)) && !BinaryExponent(ByteAt(src, exp))
    ensures (var (kind, r) := NumberEnd(src, start, n);
             && InSync(src, r) && r.cur.at == exp && kind == n.tok
             && NumberSpan(src, start, point, exp, exp) && Longest(src, start, point, exp, exp)
             && Reported(src, r) == Reported(src, n.run.look) + Faults(src, start, point, exp, exp) -
                Count(point < exp && IsOctalOrBinary(src, start, exp)))
  {
    hide InSync, Reported, BadSeparator, HasDigits, HasDigitFrom;
    SeesByte(src, n.run.look);
    ExponentByte(n.run.look.ch);
    ExponentByte(ByteAt(src, exp));
    FailReports(src, n.run.look, !n.run.digit);
    var l := FailIf(n.run.look, !n.run.digit);
    FailReports(src, l, n.prefix == Hex && n.tok == FLOAT);
    var l2 := FailIf(l, n.prefix == Hex && n.tok == FLOAT);
    FailReports(src, l2, n.tok == INT && n.run.invalid != 0);
    var l3 := FailIf(l2, n.tok == INT && n.run.invalid != 0);
    FailReports(src, l3, n.run.sep && BadSeparator(src[start..exp]));
    SeparatorsAreSeen(src, start, exp);
  }

  lemma SeparatorsAreSeen(src: seq<byte>, start: nat, end: nat)
    requires start <= end <= |src|
    ensures BadSeparator(src[start..end]) ==> HasSeparator(src, start, end)
  {
    if BadSeparator(src[start..end]) {
      var i :| 0 <= i < end - start && BadSeparatorAt(src[start..end], i);
      assert src[start + i] == src[start..end][i];
    }
  }

  /** What a separator in the digits or in the exponent is to the whole. */
  lemma SeparatorsTogether(src: seq<byte>, start: nat, exp: nat, from': nat, end: nat)
    requires start <= exp < from' <= end <= |src|
    requires forall k :: exp <= k < from' ==> src[k] as int != '_' as int
    ensures HasSeparator(src, start, end) <==> HasSeparator(src, start, exp) || HasSeparator(src, from', end)
  {
  }

  /** Where the exponent's letter is looked at, all errors of the digits being counted. */
  function AtLetter(n: Number): Look {
    var l := FailIf(n.run.look, !n.run.digit);
    FailIf(l, BadExponent(n.prefix, Lower(l.ch)))
  }

  lemma NumberWithExponent(src: seq<byte>, start: nat, n: Number)
    requires StartsExponent(Lower(n.run.look.ch)) && n.tok != EOF
    ensures (var r := ExponentDigits(src, AtLetter(n));
             start <= r.look.cur.at <= |src| ==>
               NumberEnd(src, start, n) ==
               (FLOAT, FailIf(r.look, (n.run.sep || r.sep) && BadSeparator(src[start..r.look.cur.at]))))
  {
    hide ExponentDigits, BadSeparator, BadExponent;
  }

  lemma LetterIsRead(src: seq<byte>, start: nat, point: nat, exp: nat, n: Number)
    requires Mantissa(src, start, point, exp, n)
    requires DecimalExponent(ByteAt(src, exp)) || BinaryExponent(ByteAt(src, exp))
    ensures StartsExponent(Lower(n.run.look.ch)) && 0 < ByteAt(src, exp) < RUNE_SELF
    ensures InSync(src, AtLetter(n)) && AtLetter(n).cur.at == exp
    ensures forall end :: exp < end <= |src| ==>
              Reported(src, AtLetter(n)) ==
              Reported(src, n.run.look) + Count(!n.run.digit) + Count(WrongExponent(src, start, exp, end))
  {
    hide InSync, Reported, HasDigits, HasDigitFrom, HasSeparator, Run;
    SeesByte(src, n.run.look);
    ExponentByte(n.run.look.ch);
    ExponentByte(ByteAt(src, exp));
    FailReports(src, n.run.look, !n.run.digit);
    var l := FailIf(n.run.look, !n.run.digit);
    FailReports(src, l, BadExponent(n.prefix, Lower(l.ch)));
    forall end | exp < end <= |src|
      ensures BadExponent(n.prefix, Lower(l.ch)) <==> WrongExponent(src, start, exp, end)
    {
      SamePrefix(src, start, exp, end);
    }
  }

  /** The digits are followed by an exponent. */
  lemma EndsWith(src: seq<byte>, start: nat, point: nat, exp: nat, n: Number)
    requires Mantissa(src, start, point, exp, n)
    requires DecimalExponent(ByteAt(src, exp)) || BinaryExponent(ByteAt(src, exp))
    ensures (var (kind, r) := NumberEnd(src, start, n);
             var end := r.cur.at;
             && InSync(src, r) && exp < end <= |src| && kind == FLOAT
             && NumberSpan(src, start, point, exp, end) && Longest(src, start, point, exp, end)
             && Reported(src, r) == Reported(src, n.run.look) + Faults(src, start, point, exp, end) -
                Count(point < exp && IsOctalOrBinary(src, start, end)))
  {
    hide InSync, Reported, BadSeparator, HasDigits, HasDigitFrom, HasSeparator, ExponentDigits, NumberEnd, AtLetter,
         WrongExponent;
    LetterIsRead(src, start, point, exp, n);
    ExponentIsRead(src, AtLetter(n));
    NumberWithExponent(src, start, n);
    var r := ExponentDigits(src, AtLetter(n));
    var end := r.look.cur.at;
    FailReports(src, r.look, (n.run.sep || r.sep) && BadSeparator(src[start..end]));
    SeparatorsAreSeen(src, start, end);
    SeparatorsTogether(src, start, exp, ExponentFrom(src, exp, end), end);
    SamePrefix(src, start, exp, end);
  }

  /** A prefix that was read stays one, and an exponent's letter makes none. */
  lemma SamePrefix(src: seq<byte>, start: nat, exp: nat, end: nat)
    requires start <= exp < end <= |src|
    requires DecimalExponent(src[exp]) || BinaryExponent(src[exp])
    ensures IsHexadecimal(src, start, end) == IsHexadecimal(src, start, exp)
    ensures IsOctalOrBinary(src, start, end) == IsOctalOrBinary(src, start, exp)
    ensures DigitsFrom(src, start, end) == DigitsFrom(src, start, exp)
  {
  }

  /** A number was read from `start`: how far it reaches, its kind and its faults. */
  ghost predicate NumberRead(src: seq<byte>, start: nat, l: Look, kind: int, r: Look, point: nat, exp: nat) {
    var end := r.cur.at;
    && InSync(src, r) && NumberSpan(src, start, point, exp, end) && Longest(src, start, point, exp, end)
    && kind == (if point == end then INT else FLOAT)
    && Reported(src, r) == Reported(src, l) + Faults(src, start, point, exp, end)
  }

  lemma MantissaEnds(src: seq<byte>, start: nat, point: nat, exp: nat, n: Number, l: Look)
    requires Mantissa(src, start, point, exp, n)
    requires Reported(src, n.run.look) == Reported(src, l) + Count(point < exp && IsOctalOrBinary(src, start, exp))
    ensures (var (kind, r) := NumberEnd(src, start, n); NumberRead(src, start, l, kind, r, point, exp))
  {
    hide InSync, Reported, NumberEnd, Faults, Longest;
    if DecimalExponent(ByteAt(src, exp)) || BinaryExponent(ByteAt(src, exp)) {
      EndsWith(src, start, point, exp, n);
      SamePrefix(src, start, exp, NumberEnd(src, start, n).1.cur.at);
    } else {
      EndsWithout(src, start, point, exp, n);
    }
  }

  /** A number that begins with a digit. */
  lemma DigitStarts(src: seq<byte>, l: Look) returns (point: nat, exp: nat)
    requires InSync(src, l) && IsDecimal(l.ch)
    ensures (var (kind, r) := NumberToken(src, l.cur.at, l, false); NumberRead(src, l.cur.at, l, kind, r, point, exp))
  {
    hide InSync, Reported, NumberEnd, Next, Mantissa, NumberRead, StartRead, Digits, DigitsRead, IntegerStart;
    var start := l.cur.at;
    var (prefix, run) := IntegerStart(src, l);
    StartIsRead(src, l);
    IntegerSteps(src, l);
    var r := Digits(src, BaseOf(prefix), run);
    assert DigitsRead(src, BaseOf(prefix), run, r) by {
      StartInSync(src, start, prefix, run);
      DigitsAreRead(src, BaseOf(prefix), run);
    }
    DigitsKeepPlace(src, BaseOf(prefix), run, r);
    SeesByte(src, r.look);
    point := r.look.cur.at;
    if r.look.ch == '.' as int {
      PastByte(src, r.look);
      var n := Number(prefix, r.(look := Next(src, r.look)), INT);
      var bad := prefix == Octal || prefix == Binary;
      FailReports(src, n.run.look, bad);
      var r2 := n.run.(look := FailIf(n.run.look, bad));
      DigitsAreRead(src, BaseOf(prefix), r2);
      var r3 := Digits(src, BaseOf(prefix), r2);
      DigitsKeepPlace(src, BaseOf(prefix), r2, r3);
      exp := r3.look.cur.at;
      FractionIsMantissa(src, start, prefix, run, r, r2, r3);
      PrefixOfMantissa(src, start, point, exp, Number(prefix, r3, FLOAT));
      MantissaEnds(src, start, point, exp, Number(prefix, r3, FLOAT), l);
    } else {
      exp := point;
      IntegerIsMantissa(src, start, prefix, run, r);
      MantissaEnds(src, start, point, exp, Number(prefix, r, INT), l);
    }
  }

  lemma StartInSync(src: seq<byte>, start: nat, prefix: Prefix, run: DigitRun)
    requires StartRead(src, start, prefix, run)
    ensures InSync(src, run.look)
  {
  }

  lemma DigitsKeepPlace(src: seq<byte>, base: int, r: DigitRun, r': DigitRun)
    requires DigitsRead(src, base, r, r')
    ensures InSync(src, r'.look) && r.look.cur.at <= r'.look.cur.at && Reported(src, r'.look) == Reported(src, r.look)
  {
  }

  lemma PrefixOfMantissa(src: seq<byte>, start: nat, point: nat, exp: nat, n: Number)
    requires Mantissa(src, start, point, exp, n)
    ensures n.prefix == Octal || n.prefix == Binary <==> IsOctalOrBinary(src, start, exp)
    ensures point < exp <==> n.tok == FLOAT
  {
  }

  /** A number that begins with a point, before a digit. */
  lemma PointStarts(src: seq<byte>, l: Look) returns (point: nat, exp: nat)
    requires InSync(src, l) && l.ch == '.' as int && IsDecimal(Next(src, l).ch)
    ensures (var (kind, r) := NumberToken(src, l.cur.at, Next(src, l), true);
             NumberRead(src, l.cur.at, l, kind, r, point, exp))
  {
    hide InSync, Reported, NumberEnd, Next, Mantissa, NumberRead;
    var start := l.cur.at;
    SeesByte(src, l);
    PastByte(src, l);
    var run := DigitRun(Next(src, l), 0, false, false);
    DigitsAreRead(src, 10, run);
    var r := Digits(src, 10, run);
    point, exp := start, r.look.cur.at;
    assert Mantissa(src, start, point, exp, Number(NoPrefix, r, FLOAT)) by {
      PointIsMantissa(src, start, run, r);
    }
    MantissaEnds(src, start, point, exp, Number(NoPrefix, r, FLOAT), l);
  }

  lemma PointIsMantissa(src: seq<byte>, start: nat, run: DigitRun, r: DigitRun)
    requires ByteAt(src, start) == '.' as int
    requires run == DigitRun(run.look, 0, false, false) && run.look.cur.at == start + 1 && DigitsRead(src, 10, run, r)
    ensures Mantissa(src, start, start, r.look.cur.at, Number(NoPrefix, r, FLOAT))
  {
    hide InSync, Reported;
  }

  // ----- number tokens of a source -----

  /** What the text of a number token says, on its own. */
  ghost predicate NumberText(x: seq<byte>, kind: int, point: nat, exp: nat) {
    NumberSpan(x, 0, point, exp, |x|) && kind == (if point == |x| then INT else FLOAT)
  }

  lemma SpanOfText(src: seq<byte>, start: nat, point: nat, exp: nat, end: nat)
    requires NumberSpan(src, start, point, exp, end)
    ensures NumberSpan(src[start..end], 0, point - start, exp - start, end - start)
  {
    var x := src[start..end];
    assert forall k :: start <= k < end ==> x[k - start] == src[k];
    assert forall k :: 0 <= k < end - start ==> x[k] == src[start + k];
  }

  /** A text of this form is a floating-point number exactly if it has a point or the letter of an exponent; 'e' is a
      digit after a hexadecimal prefix. */
  predicate LooksFloat(x: seq<byte>) {
    exists k :: 0 <= k < |x| &&
                (x[k] as int == '.' as int || BinaryExponent(x[k]) ||
                 (DecimalExponent(x[k]) && !IsHexadecimal(x, 0, |x|)))
  }

  lemma KindOfText(x: seq<byte>, kind: int, point: nat, exp: nat)
    requires NumberText(x, kind, point, exp)
    ensures kind == FLOAT <==> LooksFloat(x)
    ensures kind == INT <==> !LooksFloat(x)
  {
    if point < |x| {
      var k := if point < exp then point else exp;
      assert x[k] as int == '.' as int || BinaryExponent(x[k]) || DecimalExponent(x[k]);
    }
  }

  /** What a number token of a source is: its text, up to where it cannot go on, says its kind. */
  ghost predicate NumberTokenOk(src: seq<byte>, t: Token) {
    && t.from <= t.to <= |src| && (t.kind == INT || t.kind == FLOAT)
    && LooksFloat(src[t.from..t.to]) == (t.kind == FLOAT)
    && exists point: nat, exp: nat :: NumberForm(src, t, point, exp)
  }

  ghost predicate NumberForm(src: seq<byte>, t: Token, point: nat, exp: nat) {
    && NumberSpan(src, t.from, point, exp, t.to) && Longest(src, t.from, point, exp, t.to)
    && (t.kind == INT <==> point == t.to)
  }

  /** A number begins at `p`. */
  predicate NumberStarts(src: seq<byte>, p: nat) {
    '0' as int <= ByteAt(src, p) <= '9' as int ||
    (ByteAt(src, p) == '.' as int && '0' as int <= ByteAt(src, p + 1) <= '9' as int)
  }

  lemma ReadIsOk(src: seq<byte>, l: Look, t: Token, point: nat, exp: nat)
    requires NumberRead(src, t.from, l, t.kind, t.after, point, exp) && t.to == t.after.cur.at
    ensures NumberTokenOk(src, t) && NumberForm(src, t, point, exp)
  {
    hide NumberSpan, Longest, Reported, InSync, Faults, LooksFloat;
    SpanBounds(src, t.from, point, exp, t.to);
    SpanOfText(src, t.from, point, exp, t.to);
    KindOfText(src[t.from..t.to], t.kind, point - t.from, exp - t.from);
    assert NumberForm(src, t, point, exp);
  }

  lemma SpanBounds(src: seq<byte>, start: nat, point: nat, exp: nat, end: nat)
    requires NumberSpan(src, start, point, exp, end)
    ensures start <= point <= exp <= end <= |src|
  {
  }

  /** A token that begins with a digit, or with a point and a digit, is a number, and the errors counted are its
      faults. */
  lemma NumberAt(ident: Identifies, src: seq<byte>, l: Look) returns (point: nat, exp: nat)
    requires InSync(src, l) && !ident(l.ch, 0) && NumberStarts(src, l.cur.at)
    ensures (var (kind, r) := TokenAt(ident, src, l); var t := Token(kind, l.cur.at, r.cur.at, Place(l.cur), r);
             && NumberTokenOk(src, t) && NumberForm(src, t, point, exp)
             && Reported(src, r) == Reported(src, l) + Faults(src, t.from, point, exp, t.to))
  {
    hide InSync, NumberToken, QuotedToken, IdentBody, NumberTokenOk, NumberForm, NumberSpan, Longest, Faults, Reported,
         Next;
    SeesByte(src, l);
    var (kind, r) := TokenAt(ident, src, l);
    var t := Token(kind, l.cur.at, r.cur.at, Place(l.cur), r);
    if IsDecimal(l.ch) {
      point, exp := DigitStarts(src, l);
      ReadIsOk(src, l, t, point, exp);
    } else {
      PastByte(src, l);
      SeesByte(src, Next(src, l));
      point, exp := PointStarts(src, l);
      ReadIsOk(src, l, t, point, exp);
    }
  }

  /** No other token is a number. */
  lemma NumberOnlyAt(ident: Identifies, src: seq<byte>, l: Look)
    requires InSync(src, l)
    requires TokenAt(ident, src, l).0 == INT || TokenAt(ident, src, l).0 == FLOAT
    ensures !ident(l.ch, 0) && NumberStarts(src, l.cur.at)
  {
    hide InSync, NumberToken, IdentBody, Next;
    SeesByte(src, l);
    if l.ch == '.' as int {
      PastByte(src, l);
      SeesByte(src, Next(src, l));
    }
  }
}
