/**
 What the scanner makes of a source that lies before it as a whole: no buffer,
 no reader.
 */
module ScannerSpec {
  import opened Utf8

  // Tokens; a character that starts none of these is a token of its own.
  const EOF := -1
  const IDENT := -2
  const INT := -3
  const FLOAT := -4
  const STRING := -5
  const BLOCK_STRING := -6

  const BOM := 0xFEFF

  /** Where the character looked at lies and how wide it is, and the counts kept up to there. */
  datatype Cursor = Cursor(at: nat, width: nat, line: int, column: nat, lastLineLen: nat, errors: nat)

  /** The character looked at. */
  datatype Look = Look(ch: int, cur: Cursor)

  function Rest(src: seq<byte>, l: Look): nat {
    if l.cur.at + l.cur.width <= |src| then |src| - (l.cur.at + l.cur.width) else 0
  }

  /** Bounds how many more characters can be looked at. */
  function Left(src: seq<byte>, l: Look): nat {
    Rest(src, l) + if l.ch < 0 then 0 else 1
  }

  function Step(src: seq<byte>, c: Cursor): (l: Look)
    ensures l.cur.at == c.at + c.width && (l.ch >= 0 || l.ch == EOF)
  {
    var n := c.at + c.width;
    if n >= |src| then
      Look(EOF, c.(at := n, width := 0, column := if c.width > 0 then c.column + 1 else c.column))
    else
      var (ch, w) := DecodeRune(src[n..]);
      var d := c.(at := n, width := w, column := c.column + 1);
      if ch == RUNE_ERROR && w == 1 then Look(ch, d.(errors := c.errors + 1))
      else if ch == 0 then Look(ch, d.(errors := c.errors + 1))
      else if ch == 10 then Look(ch, d.(line := c.line + 1, lastLineLen := c.column + 1, column := 0))
      else Look(ch, d)
  }

  function Next(src: seq<byte>, l: Look): (r: Look)
    ensures r.cur.at == l.cur.at + l.cur.width
    ensures r.ch >= 0 ==> Rest(src, r) < Rest(src, l)
    ensures Rest(src, r) <= Rest(src, l) && Left(src, r) <= Rest(src, l)
  {
    Step(src, l.cur)
  }

  function Fail(l: Look): Look {
    l.(cur := l.cur.(errors := l.cur.errors + 1))
  }

  function FailIf(l: Look, bad: bool): Look {
    if bad then Fail(l) else l
  }

  // ----- characters -----

  function Lower(ch: int): int {
    if ch < 0 || (ch / 32) % 2 == 1 then ch else ch + 32
  }

  predicate IsDecimal(ch: int) {
    '0' as int <= ch <= '9' as int
  }

  predicate IsHex(ch: int) {
    IsDecimal(ch) || 'a' as int <= Lower(ch) <= 'f' as int
  }

  predicate IsSpace(ch: int) {
    ch == 9 || ch == 10 || ch == 13 || ch == 32
  }

  function DigitVal(ch: int): int {
    if IsDecimal(ch) then ch - '0' as int
    else if 'a' as int <= Lower(ch) <= 'f' as int then Lower(ch) - 'a' as int + 10
    else 16
  }

  type Identifies = f: (int, nat) -> bool | forall i :: !f(-1, i) witness (_, _) => false

  // ----- identifiers -----

  function IdentBody(ident: Identifies, src: seq<byte>, l: Look, i: nat): Look
    decreases Left(src, l)
  {
    if ident(l.ch, i) && l.ch >= 0 then IdentBody(ident, src, Next(src, l), i + 1) else l
  }

  // ----- numbers -----

  datatype DigitRun = DigitRun(look: Look, invalid: int, digit: bool, sep: bool)

  predicate InRun(base: int, ch: int) {
    ch == '_' as int || if base <= 10 then IsDecimal(ch) else IsHex(ch)
  }

  function Digits(src: seq<byte>, base: int, r: DigitRun): DigitRun
    decreases Left(src, r.look)
  {
    var ch := r.look.ch;
    if InRun(base, ch) then
      Digits(src, base, DigitRun(
        Next(src, r.look),
        if base <= 10 && ch != '_' as int && ch >= '0' as int + base && r.invalid == 0 then ch else r.invalid,
        r.digit || ch != '_' as int,
        r.sep || ch == '_' as int))
    else r
  }

  datatype Prefix = NoPrefix | Zero | Hex | Octal | Binary

  function BaseOf(p: Prefix): int {
    match p
    case NoPrefix => 10
    case Zero => 8
    case Hex => 16
    case Octal => 8
    case Binary => 2
  }

  function PrefixOf(ch: int): Prefix {
    if Lower(ch) == 'x' as int then Hex
    else if Lower(ch) == 'o' as int then Octal
    else if Lower(ch) == 'b' as int then Binary
    else Zero
  }

  datatype Number = Number(prefix: Prefix, run: DigitRun, tok: int)

  /** The part before the point, and the point; a leading zero counts as a digit. */
  function IntegerPart(src: seq<byte>, l: Look): (Number, bool) {
    var (prefix, run) :=
      if l.ch == '0' as int then
        var l2 := Next(src, l);
        var prefix := PrefixOf(l2.ch);
        (prefix, DigitRun(if prefix == Zero then l2 else Next(src, l2), 0, prefix == Zero, false))
      else (NoPrefix, DigitRun(l, 0, false, false));
    var r := Digits(src, BaseOf(prefix), run);
    if r.look.ch == '.' as int then (Number(prefix, r.(look := Next(src, r.look)), INT), true)
    else (Number(prefix, r, INT), false)
  }

  function FractionalPart(src: seq<byte>, n: Number): Number {
    var look := FailIf(n.run.look, n.prefix == Octal || n.prefix == Binary);
    Number(n.prefix, Digits(src, BaseOf(n.prefix), n.run.(look := look)), FLOAT)
  }

  /** `l` is the exponent's letter. */
  function ExponentDigits(src: seq<byte>, l: Look): DigitRun {
    var l2 := Next(src, l);
    var l3 := if l2.ch == '+' as int || l2.ch == '-' as int then Next(src, l2) else l2;
    var r := Digits(src, 10, DigitRun(l3, 0, false, false));
    r.(look := FailIf(r.look, !r.digit))
  }

  predicate BadExponent(prefix: Prefix, e: int) {
    if e == 'e' as int then prefix != NoPrefix && prefix != Zero else prefix != Hex
  }

  predicate StartsExponent(e: int) {
    e == 'e' as int || e == 'p' as int
  }

  function Exponent(src: seq<byte>, n: Number): Number {
    var e := Lower(n.run.look.ch);
    if StartsExponent(e) then
      var r := ExponentDigits(src, FailIf(n.run.look, BadExponent(n.prefix, e)));
      Number(n.prefix, DigitRun(r.look, n.run.invalid, n.run.digit || r.digit, n.run.sep || r.sep), FLOAT)
    else n.(run := n.run.(look := FailIf(n.run.look, n.prefix == Hex && n.tok == FLOAT)))
  }

  /** A number whose text starts at `start`: `l` is its first character, or the one after its point. */
  function NumberToken(src: seq<byte>, start: nat, l: Look, seenDot: bool): (int, Look) {
    var (n, dot) := if seenDot then (Number(NoPrefix, DigitRun(l, 0, false, false), FLOAT), true)
                    else IntegerPart(src, l);
    NumberEnd(src, start, if dot then FractionalPart(src, n) else n)
  }

  function NumberEnd(src: seq<byte>, start: nat, n: Number): (int, Look) {
    var n2 := Exponent(src, n.(run := n.run.(look := FailIf(n.run.look, !n.run.digit))));
    var l := FailIf(n2.run.look, n2.tok == INT && n2.run.invalid != 0);
    (n2.tok, FailIf(l, n2.run.sep && start <= l.cur.at <= |src| && BadSeparator(src[start..l.cur.at])))
  }

  // ----- separators in numbers -----

  predicate HasPrefix(x: seq<byte>) {
    |x| >= 2 && x[0] as int == '0' as int && PrefixOf(x[1]) != Zero
  }

  predicate IsDigitOf(x: seq<byte>, i: nat)
    requires i < |x|
  {
    IsDecimal(x[i]) || (HasPrefix(x) && PrefixOf(x[1]) == Hex && IsHex(x[i]))
  }

  /** The place `i` counts as a digit for a separator after it. */
  predicate DigitAt(x: seq<byte>, i: int) {
    0 <= i < |x| && (if HasPrefix(x) && i < 2 then i == 1 else IsDigitOf(x, i))
  }

  predicate SeparatorAt(x: seq<byte>, i: int) {
    0 <= i < |x| && x[i] as int == '_' as int && (HasPrefix(x) ==> i >= 2)
  }

  /** A separator not between digits; of two side by side the second is meant. */
  predicate BadSeparatorAt(x: seq<byte>, i: int) {
    SeparatorAt(x, i) && (!DigitAt(x, i - 1) || !(DigitAt(x, i + 1) || SeparatorAt(x, i + 1)))
  }

  predicate BadSeparator(x: seq<byte>) {
    exists i :: 0 <= i < |x| && BadSeparatorAt(x, i)
  }

  // ----- strings -----

  function EscapeDigits(src: seq<byte>, l: Look, base: int, n: nat): Look
    decreases n
  {
    if n > 0 && DigitVal(l.ch) < base then EscapeDigits(src, Next(src, l), base, n - 1)
    else FailIf(l, n > 0)
  }

  predicate SimpleEscape(ch: int) {
    ch == 'a' as int || ch == 'b' as int || ch == 'f' as int || ch == 'n' as int || ch == 'r' as int ||
    ch == 't' as int ||
    ch == 'v' as int || ch == '\\' as int || ch == '"' as int
  }

  /** `l` is the backslash. */
  function Escape(src: seq<byte>, l: Look): Look {
    var l2 := Next(src, l);
    if SimpleEscape(l2.ch) then Next(src, l2)
    else if '0' as int <= l2.ch <= '7' as int then EscapeDigits(src, l2, 8, 3)
    else if l2.ch == 'x' as int then EscapeDigits(src, Next(src, l2), 16, 2)
    else if l2.ch == 'u' as int then EscapeDigits(src, Next(src, l2), 16, 4)
    else if l2.ch == 'U' as int then EscapeDigits(src, Next(src, l2), 16, 8)
    else Fail(l2)
  }

  lemma {:induction false} EscapeDigitsLeft(src: seq<byte>, l: Look, base: int, n: nat)
    ensures Left(src, EscapeDigits(src, l, base, n)) <= Left(src, l)
    ensures Rest(src, EscapeDigits(src, l, base, n)) <= Rest(src, l)
    decreases n
  {
    if n > 0 && DigitVal(l.ch) < base {
      EscapeDigitsLeft(src, Next(src, l), base, n - 1);
    }
  }

  lemma EscapeLeft(src: seq<byte>, l: Look)
    ensures Left(src, Escape(src, l)) <= Rest(src, l)
  {
    hide Next, Step, Rest, Left, EscapeDigits, SimpleEscape;
    var l2 := Next(src, l);
    NextLeavesLess(src, l);
    NextLeavesLess(src, l2);
    EscapeDigitsLeft(src, l2, 8, 3);
    EscapeDigitsLeft(src, Next(src, l2), 16, 2);
    EscapeDigitsLeft(src, Next(src, l2), 16, 4);
    EscapeDigitsLeft(src, Next(src, l2), 16, 8);
    FailLeaves(src, l2);
  }

  lemma NextLeavesLess(src: seq<byte>, l: Look)
    ensures Left(src, Next(src, l)) <= Rest(src, l) <= Left(src, l)
  {
  }

  lemma FailLeaves(src: seq<byte>, l: Look)
    ensures Left(src, Fail(l)) == Left(src, l)
  {
  }

  /** Up to the closing quote, the end of the line or of the source. */
  function StringBody(src: seq<byte>, l: Look): Look
    decreases Left(src, l)
  {
    if l.ch == '"' as int then l
    else if l.ch == 10 || l.ch < 0 then Fail(l)
    else if l.ch == '\\' as int then
      EscapeLeft(src, l);
      StringBody(src, Escape(src, l))
    else StringBody(src, Next(src, l))
  }

  /** Up to three quotes in a row, `q` of which were seen. */
  function BlockBody(src: seq<byte>, l: Look, q: nat): Look
    decreases Rest(src, l)
  {
    var l2 := Next(src, l);
    if l2.ch < 0 then Fail(l2)
    else if l2.ch != '"' as int then BlockBody(src, l2, 0)
    else if q == 2 then l2
    else BlockBody(src, l2, q + 1)
  }

  /** From a quote: an empty literal leaves the quote as the character looked at, though the scanner is past it. */
  function QuotedToken(src: seq<byte>, l: Look): (int, Look) {
    var l2 := Next(src, l);
    if l2.ch == '"' as int then
      var l3 := Next(src, l2);
      if l3.ch == '"' as int then (BLOCK_STRING, Next(src, BlockBody(src, l3, 0)))
      else (STRING, Look(l.ch, l3.cur))
    else (STRING, Next(src, StringBody(src, Next(src, l2))))
  }

  // ----- tokens -----

  function CommentBody(src: seq<byte>, l: Look): (r: Look)
    ensures Left(src, r) <= Left(src, l)
    decreases Left(src, l)
  {
    if l.ch == 10 || l.ch < 0 then l else CommentBody(src, Next(src, l))
  }

  function SkipSpace(src: seq<byte>, l: Look): (r: Look)
    ensures !IsSpace(r.ch) && Left(src, r) <= Left(src, l)
    decreases Left(src, l)
  {
    if IsSpace(l.ch) then SkipSpace(src, Next(src, l)) else l
  }

  /** Past white space and comments. */
  function Skip(ident: Identifies, src: seq<byte>, l: Look): (r: Look)
    ensures !IsSpace(r.ch) && Left(src, r) <= Left(src, l)
    decreases Left(src, l)
  {
    var l2 := SkipSpace(src, l);
    if l2.ch == '#' as int && !ident(l2.ch, 0) then Skip(ident, src, CommentBody(src, Next(src, l2))) else l2
  }

  function TokenAt(ident: Identifies, src: seq<byte>, l: Look): (int, Look) {
    if l.ch < 0 then (EOF, l)
    else if ident(l.ch, 0) then (IDENT, IdentBody(ident, src, Next(src, l), 1))
    else if IsDecimal(l.ch) then NumberToken(src, l.cur.at, l, false)
    else if l.ch == '"' as int then QuotedToken(src, l)
    else if l.ch == '.' as int && IsDecimal(Next(src, l).ch) then NumberToken(src, l.cur.at, Next(src, l), true)
    else (l.ch, Next(src, l))
  }

  function First(src: seq<byte>): Look {
    var l := Step(src, Cursor(0, 0, 1, 0, 0, 0));
    if l.ch == BOM then Next(src, l) else l
  }

  /** The position reported for a token that starts at `c`. */
  function Place(c: Cursor): (int, int) {
    if c.column > 0 then (c.line, c.column) else (c.line - 1, c.lastLineLen)
  }

  /** A token, the part of the source it covers, where it is reported, and what is looked at then. */
  datatype Token = Token(kind: int, from: nat, to: nat, place: (int, int), after: Look)

  function Scan(ident: Identifies, src: seq<byte>, l: Look): Token {
    var l2 := Skip(ident, src, l);
    var (kind, l3) := TokenAt(ident, src, l2);
    Token(kind, l2.cur.at, l3.cur.at, Place(l2.cur), l3)
  }
}
