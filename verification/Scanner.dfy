/**
 The scanner over a reader that hands out the source in pieces.  Part of the
 source is in a buffer; the head of a token's text may have moved out of it.
 */
module Scanner {
  import opened Utf8
  import opened ScannerSpec
  import opened ScannerPositions
  import ScannerRuns
  import NumberTokens
  import TokenKinds

  function Flatten(chunks: seq<seq<byte>>): seq<byte> {
    if chunks == [] then [] else chunks[0] + Flatten(chunks[1..])
  }

  /** A source in pieces, some perhaps empty.  An eager reader reports the end together with the last bytes. */
  class Reader {
    var chunks: seq<seq<byte>>
    const eager: bool

    constructor (chunks: seq<seq<byte>>, eager: bool)
      ensures this.chunks == chunks && this.eager == eager
    {
      this.chunks, this.eager := chunks, eager;
    }

    ghost function Pending(): seq<byte>
      reads this
    {
      Flatten(chunks)
    }

    /** How many reads there can still be. */
    ghost function Fuel(): nat
      reads this
    {
      |chunks| + |Pending()|
    }

    method Read(max: nat) returns (data: seq<byte>, eof: bool)
      requires max > 0
      modifies this
      ensures old(Pending()) == data + Pending() && |data| <= max
      ensures eof ==> Pending() == []
      ensures !eof ==> Fuel() < old(Fuel())
    {
      if chunks == [] {
        return [], true;
      }
      var first := chunks[0];
      var n := if max < |first| then max else |first|;
      data := first[..n];
      chunks := if n < |first| then [first[n..]] + chunks[1..] else chunks[1..];
      assert first == first[..n] + first[n..];
      eof := eager && chunks == [];
    }
  }

  const BUF_LEN := 1024

  class Scanner {
    const src: Reader
    const srcBuf: array<byte>
    const ident: Identifies
    var srcPos: nat
    var srcEnd: nat
    var srcBufOffset: nat
    var line: int
    var column: nat
    var lastLineLen: nat
    var lastCharLen: nat
    var tokBuf: seq<byte>
    var tokPos: int
    var tokEnd: int
    /** The character looked at; -2 before the first was read. */
    var ch: int
    var errorCount: nat
    // where the token starts
    var offset: nat
    var tokLine: int
    var tokColumn: int

    ghost const source: seq<byte>

    constructor (src: Reader, ident: Identifies)
      ensures Valid() && fresh(srcBuf) && this.src == src && this.ident == ident && source == src.Pending()
      ensures ch == -2 && tokPos == -1 && Cur() == Cursor(0, 0, 1, 0, 0, 0)
    {
      this.src, this.ident, this.source := src, ident, src.Pending();
      srcBuf := new byte[BUF_LEN + 1](_ => RUNE_SELF);
      srcPos, srcEnd, srcBufOffset, line, column, lastLineLen, lastCharLen := 0, 0, 0, 1, 0, 0, 0;
      tokBuf, tokPos, tokEnd, ch, errorCount, offset, tokLine, tokColumn := [], -1, 0, -2, 0, 0, 0, 0;
    }

    // ----- what holds between calls -----

    /** The buffer holds what was read and not given up, with a sentinel behind it. */
    ghost predicate BufferOk()
      reads this`srcPos, this`srcEnd, this`srcBufOffset, srcBuf, src
    {
      && srcBuf.Length == BUF_LEN + 1 && srcPos <= srcEnd <= BUF_LEN && srcBuf[srcEnd] == RUNE_SELF
      && srcBufOffset <= |source| && source[srcBufOffset..] == srcBuf[..srcEnd] + src.Pending()
    }

    /** The text of the token so far: its head was saved, its tail is in the buffer. */
    ghost predicate TokenOk(upTo: int)
      requires BufferOk()
      reads this`srcPos, this`srcEnd, this`srcBufOffset, this`tokBuf, this`tokPos, this`offset, srcBuf, src
    {
      tokPos >= 0 ==>
        && tokPos <= upTo <= srcPos && offset <= srcBufOffset + upTo <= |source|
        && tokBuf + srcBuf[tokPos..upTo] == source[offset..srcBufOffset + upTo]
    }

    ghost predicate Valid()
      reads this, srcBuf, src
    {
      BufferOk() && lastCharLen <= srcPos && TokenOk(srcPos - lastCharLen)
    }

    ghost function Cur(): Cursor
      requires lastCharLen <= srcBufOffset + srcPos
      reads this`srcPos, this`srcBufOffset, this`lastCharLen, this`line, this`column, this`lastLineLen, this`errorCount
    {
      Cursor(srcBufOffset + srcPos - lastCharLen, lastCharLen, line, column, lastLineLen, errorCount)
    }

    lemma InBuffer()
      requires BufferOk()
      ensures srcBufOffset + srcEnd <= |source| && srcPos <= srcEnd < srcBuf.Length
      ensures forall i :: 0 <= i < srcEnd ==> srcBuf[i] == source[srcBufOffset + i]
      ensures source[srcBufOffset + srcPos..] == srcBuf[srcPos..srcEnd] + src.Pending()
    {
      var rest := source[srcBufOffset..];
      assert |rest| == srcEnd + |src.Pending()|;
      assert forall i :: 0 <= i < srcEnd ==> rest[i] == srcBuf[i];
      assert source[srcBufOffset + srcPos..] == rest[srcPos..];
    }

    // ----- reading -----

    /** Moves the unread bytes to the front. */
    method MoveUnread()
      requires BufferOk()
      modifies this`srcPos, this`srcEnd, this`srcBufOffset, srcBuf
      ensures srcPos == 0 && srcEnd == old(srcEnd - srcPos) && srcBufOffset == old(srcBufOffset + srcPos)
      ensures srcBufOffset <= |source| && source[srcBufOffset..] == srcBuf[..srcEnd] + src.Pending()
    {
      InBuffer();
      forall i | 0 <= i < srcEnd - srcPos {
        srcBuf[i] := srcBuf[srcPos + i];
      }
      assert srcBuf[..srcEnd - srcPos] == old(srcBuf[srcPos..srcEnd]);
      srcPos, srcEnd, srcBufOffset := 0, srcEnd - srcPos, srcBufOffset + srcPos;
    }

    /** Reads on behind the bytes in the buffer. */
    method ReadMore() returns (eof: bool)
      requires srcBuf.Length == BUF_LEN + 1 && srcPos == 0 && srcEnd < UTF_MAX
      requires srcBufOffset <= |source| && source[srcBufOffset..] == srcBuf[..srcEnd] + src.Pending()
      modifies this`srcEnd, srcBuf, src
      ensures BufferOk()
      ensures eof ==> src.Pending() == []
      ensures !eof ==> src.Fuel() < old(src.Fuel())
    {
      var data;
      data, eof := src.Read(BUF_LEN - srcEnd);
      forall j | 0 <= j < |data| {
        srcBuf[srcEnd + j] := data[j];
      }
      assert srcBuf[..srcEnd + |data|] == old(srcBuf[..srcEnd]) + data;
      assert old(srcBuf[..srcEnd]) + (data + src.Pending()) == old(srcBuf[..srcEnd]) + data + src.Pending();
      srcEnd := srcEnd + |data|;
      srcBuf[srcEnd] := RUNE_SELF;
    }

    /** Makes room in the buffer, saving the token's text, and reads on. */
    method Fill() returns (eof: bool)
      requires BufferOk() && TokenOk(srcPos) && srcEnd - srcPos < UTF_MAX
      modifies this`srcPos, this`srcEnd, this`srcBufOffset, this`tokBuf, this`tokPos, srcBuf, src
      ensures BufferOk() && TokenOk(srcPos) && srcPos == 0
      ensures srcBufOffset == old(srcBufOffset + srcPos)
      ensures tokPos >= 0 <==> old(tokPos) >= 0
      ensures eof ==> src.Pending() == []
      ensures !eof ==> src.Fuel() < old(src.Fuel())
    {
      if tokPos >= 0 {
        tokBuf := tokBuf + srcBuf[tokPos..srcPos];
        tokPos := 0;
      }
      MoveUnread();
      eof := ReadMore();
    }

    method ReportError()
      requires lastCharLen <= srcPos
      modifies this`tokEnd, this`errorCount
      ensures errorCount == old(errorCount) + 1
    {
      tokEnd := srcPos - lastCharLen;
      errorCount := errorCount + 1;
    }

    lemma TokenGrows(upTo: int)
      requires BufferOk() && TokenOk(upTo) && upTo <= srcPos
      ensures TokenOk(srcPos)
    {
      InBuffer();
      if tokPos >= 0 {
        assert srcBuf[tokPos..srcPos] == srcBuf[tokPos..upTo] + srcBuf[upTo..srcPos];
        assert source[offset..srcBufOffset + srcPos] ==
          source[offset..srcBufOffset + upTo] + source[srcBufOffset + upTo..srcBufOffset + srcPos];
      }
    }

    /** What can be decoded from the buffer is what comes next in the source. */
    ghost predicate HasNext()
      reads this, srcBuf, src
    {
      && BufferOk() && srcPos < srcEnd
      && var rest := source[srcBufOffset + srcPos..];
      && rest != [] && rest[0] == srcBuf[srcPos]
      && DecodeRune(srcBuf[srcPos..srcEnd]) == DecodeRune(rest)
    }

    /** Reads on until a whole character is in the buffer, or the source ends. */
    method Ensure() returns (atEnd: bool)
      requires BufferOk() && TokenOk(srcPos)
      modifies this`srcPos, this`srcEnd, this`srcBufOffset, this`tokBuf, this`tokPos, srcBuf, src
      ensures BufferOk() && TokenOk(srcPos)
      ensures srcBufOffset + srcPos == old(srcBufOffset + srcPos)
      ensures tokPos >= 0 <==> old(tokPos) >= 0
      ensures atEnd ==> srcPos == 0 && source[srcBufOffset + srcPos..] == []
      ensures !atEnd ==> HasNext()
    {
      hide FullRune, DecodeRune, BufferOk, TokenOk;
      InBuffer();
      while srcPos + UTF_MAX > srcEnd && !FullRune(srcBuf[srcPos..srcEnd])
        invariant BufferOk() && TokenOk(srcPos) && srcBufOffset + srcPos == old(srcBufOffset + srcPos)
        invariant srcPos <= srcEnd < srcBuf.Length
        invariant tokPos >= 0 <==> old(tokPos) >= 0
        decreases src.Fuel()
      {
        var eof := Fill();
        InBuffer();
        if eof {
          if srcEnd == 0 {
            return true;
          }
          break;
        }
      }
      InBuffer();
      Decides(srcBuf[srcPos..srcEnd], source[srcBufOffset + srcPos..], src.Pending());
      atEnd := false;
    }

    /** Past a character that was decoded. */
    method Advance(r: int, width: nat)
      requires BufferOk() && TokenOk(srcPos) && srcPos + width <= srcEnd
      requires DecodeRune(source[srcBufOffset + srcPos..]) == (r, width)
      requires source[srcBufOffset + srcPos..] != [] && lastCharLen <= srcBufOffset + srcPos
      modifies this`srcPos, this`line, this`column, this`lastLineLen, this`lastCharLen, this`tokEnd, this`errorCount
      ensures Valid() && Look(r, Cur()) == Step(source, old(Cur()))
    {
      hide DecodeRune, FullRune, BufferOk, TokenOk;
      InBuffer();
      PassOver(width);
      CountColumn(r, width);
    }

    method PassOver(width: nat)
      requires BufferOk() && TokenOk(srcPos) && srcPos + width <= srcEnd
      modifies this`srcPos, this`lastCharLen
      ensures Valid() && srcPos == old(srcPos) + width && lastCharLen == width
    {
      srcPos := srcPos + width;
      lastCharLen := width;
    }

    method CountColumn(r: int, width: nat)
      requires lastCharLen <= srcPos
      modifies this`line, this`column, this`lastLineLen, this`tokEnd, this`errorCount
      ensures if r == RUNE_ERROR && width == 1 then
                column == old(column) + 1 && line == old(line) && lastLineLen == old(lastLineLen) &&
                errorCount == old(errorCount) + 1
              else if r == 10 then
                column == 0 && line == old(line) + 1 && lastLineLen == old(column) + 1 && errorCount == old(errorCount)
              else
                column == old(column) + 1 && line == old(line) && lastLineLen == old(lastLineLen)
                && errorCount == old(errorCount) + if r == 0 then 1 else 0
    {
      column := column + 1;
      if r == RUNE_ERROR && width == 1 {
        ReportError();
        return;
      }
      if r == 0 {
        ReportError();
      } else if r == 10 {
        line := line + 1;
        lastLineLen := column;
        column := 0;
      }
    }

    /** The next character and its width, in the buffer as a whole. */
    method Decode() returns (r: int, width: nat, atEnd: bool)
      requires BufferOk() && TokenOk(srcPos)
      modifies this`srcPos, this`srcEnd, this`srcBufOffset, this`tokBuf, this`tokPos, srcBuf, src
      ensures BufferOk() && TokenOk(srcPos)
      ensures srcBufOffset + srcPos == old(srcBufOffset + srcPos)
      ensures tokPos >= 0 <==> old(tokPos) >= 0
      ensures atEnd ==> srcPos == 0 && source[srcBufOffset + srcPos..] == []
      ensures !atEnd ==>
                source[srcBufOffset + srcPos..] != [] && DecodeRune(source[srcBufOffset + srcPos..]) == (r, width)
      ensures !atEnd ==> srcPos + width <= srcEnd
    {
      hide FullRune, DecodeRune;
      InBuffer();
      r, width, atEnd := srcBuf[srcPos], 1, false;
      if r >= RUNE_SELF {
        // not ASCII, or the end of the buffer
        atEnd := Ensure();
        if atEnd {
          return;
        }
        r := srcBuf[srcPos];
        if r >= RUNE_SELF {
          var decoded := DecodeRune(srcBuf[srcPos..srcEnd]);
          return decoded.0, decoded.1, false;
        }
      }
      AsciiDecodes(source[srcBufOffset + srcPos..]);
    }

    method ReadRune() returns (r: int)
      requires Valid()
      modifies this`srcPos, this`srcEnd, this`srcBufOffset, this`line, this`column, this`lastLineLen, this`lastCharLen,
               this`tokBuf, this`tokPos, this`tokEnd, this`errorCount, srcBuf, src
      ensures Valid() && Look(r, Cur()) == Step(source, old(Cur())) && r >= EOF
      ensures tokPos >= 0 <==> old(tokPos) >= 0
    {
      hide FullRune, DecodeRune, BufferOk;
      InBuffer();
      TokenGrows(srcPos - lastCharLen);
      var width, atEnd;
      r, width, atEnd := Decode();
      if atEnd {
        if lastCharLen > 0 {
          column := column + 1;
        }
        lastCharLen := 0;
        return EOF;
      }
      Advance(r, width);
    }

    /** The token being scanned is the same, and its text is still collected if it was. */
    twostate predicate Kept()
      reads this
    {
      && offset == old(offset) && tokLine == old(tokLine) && tokColumn == old(tokColumn) && ch == old(ch)
      && (tokPos >= 0 <==> old(tokPos) >= 0)
    }

    // ----- tokens -----

    method ScanIdentifier() returns (r: int)
      requires Valid()
      modifies this, srcBuf, src
      ensures Valid() && Kept() && r >= EOF
      ensures Look(r, Cur()) == IdentBody(ident, source, Step(source, old(Cur())), 1)
    {
      hide BufferOk, TokenOk, Step;
      r := ReadRune();
      var i := 1;
      while ident(r, i) && r >= 0
        invariant Valid() && Kept() && r >= EOF
        invariant IdentBody(ident, source, Look(r, Cur()), i) == IdentBody(ident, source, Step(source, old(Cur())), 1)
        decreases Left(source, Look(r, Cur()))
      {
        r := ReadRune();
        i := i + 1;
      }
    }

    /** The characters of a number, `invalid0` the first digit too large for the base so far. */
    method ScanDigits(ch0: int, base: int, invalid0: int) returns (r: int, invalid: int, digit: bool, sep: bool)
      requires Valid() && ch0 >= EOF
      modifies this, srcBuf, src
      ensures Valid() && Kept() && r >= EOF
      ensures DigitRun(Look(r, Cur()), invalid, digit, sep) ==
              Digits(source, base, DigitRun(Look(ch0, old(Cur())), invalid0, false, false))
    {
      hide BufferOk, TokenOk, Step;
      r, invalid, digit, sep := ch0, invalid0, false, false;
      while InRun(base, r)
        invariant Valid() && Kept() && r >= EOF
        invariant Digits(source, base, DigitRun(Look(r, Cur()), invalid, digit, sep)) ==
                  Digits(source, base, DigitRun(Look(ch0, old(Cur())), invalid0, false, false))
        decreases Left(source, Look(r, Cur()))
      {
        if r == '_' as int {
          sep := true;
        } else {
          digit := true;
          if base <= 10 && r >= '0' as int + base && invalid == 0 {
            invalid := r;
          }
        }
        r := ReadRune();
      }
    }

    method ScanEscapeDigits(ch0: int, base: int, n0: nat) returns (r: int)
      requires Valid() && ch0 >= EOF
      modifies this, srcBuf, src
      ensures Valid() && Kept() && r >= EOF
      ensures Look(r, Cur()) == EscapeDigits(source, Look(ch0, old(Cur())), base, n0)
    {
      hide BufferOk, TokenOk, Step;
      r := ch0;
      var n := n0;
      while n > 0 && DigitVal(r) < base
        invariant Valid() && Kept() && r >= EOF
        invariant EscapeDigits(source, Look(r, Cur()), base, n) == EscapeDigits(source, Look(ch0, old(Cur())), base, n0)
        decreases n
      {
        r := ReadRune();
        n := n - 1;
      }
      if n > 0 {
        ReportError();
      }
    }

    method ScanEscape(ghost l: Look) returns (r: int)
      requires Valid() && l.cur == Cur()
      modifies this, srcBuf, src
      ensures Valid() && Kept() && r >= EOF
      ensures Look(r, Cur()) == Escape(source, l)
    {
      hide BufferOk, TokenOk, Step, EscapeDigits;
      r := ReadRune();
      if SimpleEscape(r) {
        r := ReadRune();
      } else if '0' as int <= r <= '7' as int {
        r := ScanEscapeDigits(r, 8, 3);
      } else if r == 'x' as int {
        r := ReadRune();
        r := ScanEscapeDigits(r, 16, 2);
      } else if r == 'u' as int {
        r := ReadRune();
        r := ScanEscapeDigits(r, 16, 4);
      } else if r == 'U' as int {
        r := ReadRune();
        r := ScanEscapeDigits(r, 16, 8);
      } else {
        ReportError();
      }
    }

    method ScanString() returns (ghost r: Look)
      requires Valid()
      modifies this, srcBuf, src
      ensures Valid() && Kept()
      ensures r.cur == Cur() && r == StringBody(source, Step(source, old(Cur())))
    {
      hide BufferOk, TokenOk, Step, Escape;
      var c := ReadRune();
      while c != '"' as int
        invariant Valid() && Kept()
        invariant StringBody(source, Look(c, Cur())) == StringBody(source, Step(source, old(Cur())))
        decreases Left(source, Look(c, Cur()))
      {
        if c == 10 || c < 0 {
          ReportError();
          return Look(c, Cur());
        }
        if c == '\\' as int {
          EscapeLeft(source, Look(c, Cur()));
          c := ScanEscape(Look(c, Cur()));
        } else {
          c := ReadRune();
        }
      }
      r := Look(c, Cur());
    }

    method ScanBlockString(ghost l: Look) returns (ghost r: Look)
      requires Valid() && l.cur == Cur()
      modifies this, srcBuf, src
      ensures Valid() && Kept()
      ensures r.cur == Cur() && r == BlockBody(source, l, 0)
    {
      hide BufferOk, TokenOk, Step;
      var quoteCounter := 0;
      ghost var now := l;
      while true
        invariant Valid() && Kept() && now.cur == Cur() && quoteCounter <= 2
        invariant BlockBody(source, now, quoteCounter) == BlockBody(source, l, 0)
        decreases Rest(source, now)
      {
        ghost var before := now;
        var c := ReadRune();
        now := Look(c, Cur());
        assert now == ScannerSpec.Next(source, before);
        if c == EOF {
          ReportError();
          return Look(c, Cur());
        }
        if c == '"' as int {
          quoteCounter := quoteCounter + 1;
          if quoteCounter == 3 {
            return now;
          }
        } else {
          quoteCounter := 0;
        }
      }
    }

    method ScanComment() returns (r: int)
      requires Valid()
      modifies this, srcBuf, src
      ensures Valid() && Kept() && r >= EOF
      ensures Look(r, Cur()) == CommentBody(source, Step(source, old(Cur())))
    {
      hide BufferOk, TokenOk, Step;
      r := ReadRune();
      while r != 10 && r >= 0
        invariant Valid() && Kept() && r >= EOF
        invariant CommentBody(source, Look(r, Cur())) == CommentBody(source, Step(source, old(Cur())))
        decreases Left(source, Look(r, Cur()))
      {
        r := ReadRune();
      }
    }

    // ----- numbers -----

    /** The integer part of a number, and the point after it. */
    method ScanInteger(ch0: int) returns (r: int, prefix: Prefix, invalid: int, digit: bool, sep: bool, dot: bool)
      requires Valid() && ch0 >= EOF
      modifies this, srcBuf, src
      ensures Valid() && Kept() && r >= EOF
      ensures IntegerPart(source, Look(ch0, old(Cur()))) ==
              (Number(prefix, DigitRun(Look(r, Cur()), invalid, digit, sep), INT), dot)
    {
      hide BufferOk, TokenOk, Step, Digits, Lower;
      r := ch0;
      prefix := NoPrefix;
      var leading := false;
      if r == '0' as int {
        r := ReadRune();
        prefix := PrefixOf(r);
        if prefix == Zero {
          leading := true;
        } else {
          r := ReadRune();
        }
      }
      ghost var l := Look(r, Cur());
      r, invalid, digit, sep := ScanDigits(r, BaseOf(prefix), 0);
      DigitsAdd(source, BaseOf(prefix), l, 0, leading, false);
      digit := digit || leading;
      dot := r == '.' as int;
      if dot {
        r := ReadRune();
      }
    }

    method ScanFraction(ch0: int, prefix: Prefix, invalid0: int, digit0: bool, sep0: bool)
      returns (r: int, invalid: int, digit: bool, sep: bool)
      requires Valid() && ch0 >= EOF
      modifies this, srcBuf, src
      ensures Valid() && Kept() && r >= EOF
      ensures forall tok :: (FractionalPart(source,
                                            Number(prefix, DigitRun(Look(ch0, old(Cur())), invalid0, digit0, sep0),
                                                   tok))
                             == Number(prefix, DigitRun(Look(r, Cur()), invalid, digit, sep), FLOAT))
    {
      hide BufferOk, TokenOk, Step, Digits, Lower;
      if prefix == Octal || prefix == Binary {
        ReportError();
      }
      ghost var l := Look(ch0, Cur());
      r, invalid, digit, sep := ScanDigits(ch0, BaseOf(prefix), invalid0);
      DigitsAdd(source, BaseOf(prefix), l, invalid0, digit0, sep0);
      digit, sep := digit || digit0, sep || sep0;
    }

    method ScanExponentDigits() returns (r: int, digit: bool, sep: bool, ghost invalid: int)
      requires Valid()
      modifies this, srcBuf, src
      ensures Valid() && Kept() && r >= EOF
      ensures forall c :: ExponentDigits(source, Look(c, old(Cur()))) == DigitRun(Look(r, Cur()), invalid, digit, sep)
    {
      hide BufferOk, TokenOk, Step, Digits;
      r := ReadRune();
      if r == '+' as int || r == '-' as int {
        r := ReadRune();
      }
      r, invalid, digit, sep := ScanDigits(r, 10, 0);
      if !digit {
        ReportError();
      }
    }

    method ScanExponent(ch0: int, prefix: Prefix, tok0: int, ghost run: DigitRun)
      returns (r: int, tok: int, digit: bool, sep: bool)
      requires Valid() && ch0 >= EOF && run.look == Look(ch0, Cur())
      modifies this, srcBuf, src
      ensures Valid() && Kept() && r >= EOF
      ensures Exponent(source, Number(prefix, run, tok0)) ==
              Number(prefix, DigitRun(Look(r, Cur()), run.invalid, run.digit || digit, run.sep || sep), tok)
    {
      hide BufferOk, TokenOk, Step, Digits, Lower, ExponentDigits;
      r, tok, digit, sep := ch0, tok0, false, false;
      var e := Lower(r);
      if StartsExponent(e) {
        if BadExponent(prefix, e) {
          ReportError();
        }
        ghost var l := Look(r, Cur());
        ghost var invalid;
        r, digit, sep, invalid := ScanExponentDigits();
        assert ExponentDigits(source, l) == DigitRun(Look(r, Cur()), invalid, digit, sep);
        tok := FLOAT;
      } else if prefix == Hex && tok == FLOAT {
        ReportError();
      }
    }

    method ScanNumber(ch0: int, seenDot: bool) returns (tok: int, r: int)
      requires Valid() && ch0 >= EOF && tokPos >= 0
      modifies this, srcBuf, src
      ensures Valid() && Kept() && r >= EOF
      ensures (tok, Look(r, Cur())) == NumberToken(source, offset, Look(ch0, old(Cur())), seenDot)
    {
      hide BufferOk, TokenOk, Step, Digits, Lower, IntegerPart, FractionalPart, Exponent, BadSeparator, NumberEnd;
      r := ch0;
      var prefix, invalid, digit, sep, dot := NoPrefix, 0, false, false, seenDot;
      tok := INT;
      if !seenDot {
        r, prefix, invalid, digit, sep, dot := ScanInteger(r);
      }
      if dot {
        tok := FLOAT;
        r, invalid, digit, sep := ScanFraction(r, prefix, invalid, digit, sep);
      }
      tok, r := ScanNumberEnd(r, prefix, tok, invalid, digit, sep);
    }

    /** The exponent, and what is wrong with the number. */
    method ScanNumberEnd(ch0: int, prefix: Prefix, tok0: int, invalid: int, digit: bool, sep: bool)
      returns (tok: int, r: int)
      requires Valid() && ch0 >= EOF && tokPos >= 0
      modifies this, srcBuf, src
      ensures Valid() && Kept() && r >= EOF
      ensures (tok, Look(r, Cur())) ==
              NumberEnd(source, offset, Number(prefix, DigitRun(Look(ch0, old(Cur())), invalid, digit, sep), tok0))
    {
      hide BufferOk, TokenOk, Step, Digits, Lower, Exponent, BadSeparator;
      if !digit {
        ReportError();
      }
      var exponentDigit, exponentSep;
      r, tok, exponentDigit, exponentSep :=
        ScanExponent(ch0, prefix, tok0, DigitRun(Look(ch0, Cur()), invalid, digit, sep));
      if tok == INT && invalid != 0 {
        ReportError();
      }
      if sep || exponentSep {
        CheckSeparators();
      }
    }

    lemma TokenInSource()
      requires Valid()
      ensures tokPos >= 0 ==> offset <= Cur().at <= |source|
    {
    }

    method CheckSeparators()
      requires Valid() && tokPos >= 0
      modifies this`tokEnd, this`tokPos, this`tokBuf, this`errorCount
      ensures Valid() && tokPos >= 0 && offset <= Cur().at <= |source|
      ensures errorCount == old(errorCount) + if BadSeparator(source[offset..Cur().at]) then 1 else 0
    {
      hide BufferOk, TokenOk, BadSeparator;
      TokenInSource();
      tokEnd := srcPos - lastCharLen;
      var text := TokenText();
      var i := InvalidSep(text);
      if i >= 0 {
        ReportError();
      }
    }

    /** The text of the token up to where it was last said to end. */
    method TokenText() returns (text: seq<byte>)
      requires Valid() && (tokPos >= 0 ==> tokEnd <= srcPos - lastCharLen)
      modifies this`tokEnd, this`tokPos, this`tokBuf
      ensures Valid() && (tokPos >= 0 <==> old(tokPos) >= 0)
      ensures tokPos < 0 ==> text == []
      ensures tokPos >= 0 ==>
                tokEnd == (if old(tokEnd) < old(tokPos) then old(tokPos) else old(tokEnd)) <= srcPos - lastCharLen
      ensures tokPos >= 0 ==>
                offset <= srcBufOffset + tokEnd <= |source| && text == source[offset..srcBufOffset + tokEnd]
    {
      hide BufferOk, TokenOk;
      InBuffer();
      TextStarts();
      if tokPos < 0 {
        return [];
      }
      if tokEnd < tokPos {
        tokEnd := tokPos;
      }
      TextSoFar(tokEnd);
      if tokBuf == [] {
        return srcBuf[tokPos..tokEnd];
      }
      SaveText();
      text := tokBuf;
    }

    /** The rest of the token's text joins its head. */
    method SaveText()
      requires Valid() && 0 <= tokPos <= tokEnd <= srcPos - lastCharLen
      modifies this`tokPos, this`tokBuf
      ensures Valid() && tokPos == tokEnd && offset <= srcBufOffset + tokEnd <= |source|
      ensures tokBuf == source[offset..srcBufOffset + tokEnd]
    {
      TextSoFar(tokEnd);
      hide BufferOk;
      tokBuf := tokBuf + srcBuf[tokPos..tokEnd];
      tokPos := tokEnd;
    }

    lemma TextStarts()
      requires Valid()
      ensures tokPos <= srcPos - lastCharLen || tokPos < 0
    {
    }

    lemma TextSoFar(end: int)
      requires Valid() && 0 <= tokPos <= end <= srcPos - lastCharLen
      ensures offset <= srcBufOffset + end <= |source| &&
              tokBuf + srcBuf[tokPos..end] == source[offset..srcBufOffset + end]
      ensures tokBuf == [] ==> srcBuf[tokPos..end] == source[offset..srcBufOffset + end]
      ensures source[offset..srcBufOffset + (srcPos - lastCharLen)] ==
              (tokBuf + srcBuf[tokPos..end]) + srcBuf[end..srcPos - lastCharLen]
    {
      var all := tokBuf + srcBuf[tokPos..srcPos - lastCharLen];
      assert srcBuf[tokPos..srcPos - lastCharLen] == srcBuf[tokPos..end] + srcBuf[end..srcPos - lastCharLen];
      assert all[..|tokBuf| + end - tokPos] == tokBuf + srcBuf[tokPos..end];
    }

    // ----- scanning -----

    ghost predicate Ready()
      reads this, srcBuf, src
    {
      Valid() && ch >= -2 && (ch == -2 ==> Cur() == Cursor(0, 0, 1, 0, 0, 0))
    }

    /** The character looked at; before the first call, the first character. */
    ghost function Ahead(): Look
      requires Ready()
      reads this, srcBuf, src
    {
      if ch == -2 then First(source) else Look(ch, Cur())
    }

    method Peek() returns (r: int)
      requires Ready()
      modifies this, srcBuf, src
      ensures Ready() && ch >= EOF && r == ch && (tokPos >= 0 <==> old(tokPos) >= 0)
      ensures Ahead() == old(Ahead())
    {
      hide BufferOk, TokenOk, Step;
      if ch == -2 {
        ch := ReadRune();
        if ch == BOM {
          ch := ReadRune();
        }
      }
      r := ch;
    }

    /** The character looked at, which is then passed over; it is no part of a token. */
    method Next() returns (r: int)
      requires Ready()
      modifies this, srcBuf, src
      ensures Ready() && tokPos < 0 && r == old(Ahead()).ch
      ensures Ahead() == if r == EOF then old(Ahead()) else ScannerSpec.Next(source, old(Ahead()))
    {
      hide BufferOk, TokenOk, Step;
      DropText();
      tokLine := 0;
      r := Peek();
      if r != EOF {
        ch := ReadRune();
      }
    }

    /** Where the scanner is: line and column are those counted anew in the source before it. */
    method Pos() returns (at: nat, posLine: int, posColumn: int)
      requires Valid()
      ensures at == Cur().at
      ensures source != [] && (Placed(source, Cur()) || Initial(Cur())) ==>
                at <= |source| && (posLine, posColumn) == LineAndColumn(source, at)
    {
      if source != [] && (Placed(source, Cur()) || Initial(Cur())) {
        PosIsRight(source, Cur());
      }
      hide BufferOk, TokenOk, Placed, LineAndColumn;
      at := srcBufOffset + srcPos - lastCharLen;
      if column > 0 {
        return at, line, column;
      }
      if lastLineLen > 0 {
        return at, line - 1, lastLineLen;
      }
      return at, 1, 1;
    }

    /** Starts collecting the text of a token at the character looked at. */
    method StartToken(ghost l: Look)
      requires Valid() && l.cur == Cur()
      modifies this`tokBuf, this`tokPos, this`offset, this`tokLine, this`tokColumn
      ensures Valid() && tokPos >= 0 && offset == l.cur.at && (tokLine, tokColumn) == Place(l.cur)
    {
      InBuffer();
      tokBuf := [];
      tokPos := srcPos - lastCharLen;
      offset := srcBufOffset + tokPos;
      if column > 0 {
        tokLine, tokColumn := line, column;
      } else {
        tokLine, tokColumn := line - 1, lastLineLen;
      }
    }

    method SkipSpaces(ch0: int) returns (r: int)
      requires Valid() && ch0 >= EOF
      modifies this, srcBuf, src
      ensures Valid() && r >= EOF
      ensures Look(r, Cur()) == SkipSpace(source, Look(ch0, old(Cur())))
    {
      hide BufferOk, TokenOk, Step;
      r := ch0;
      while IsSpace(r)
        invariant Valid() && r >= EOF
        invariant SkipSpace(source, Look(r, Cur())) == SkipSpace(source, Look(ch0, old(Cur())))
        decreases Left(source, Look(r, Cur()))
      {
        r := ReadRune();
      }
    }

    /** From a quote on. */
    method ScanQuoted(ch0: int) returns (tok: int, r: int)
      requires Valid() && ch0 == '"' as int
      modifies this, srcBuf, src
      ensures Valid() && Kept() && r >= EOF
      ensures (tok, Look(r, Cur())) == QuotedToken(source, Look(ch0, old(Cur())))
    {
      hide BufferOk, TokenOk, Step, StringBody, BlockBody;
      tok, r := STRING, ch0;
      var ch2 := ReadRune();
      if ch2 == '"' as int {
        var ch3 := ReadRune();
        if ch3 == '"' as int {
          ghost var body := ScanBlockString(Look(ch3, Cur()));
          tok := BLOCK_STRING;
          r := ReadRune();
        }
        return;
      }
      ghost var body := ScanString();
      r := ReadRune();
    }

    /** The token at the character looked at. */
    method ScanToken(ch0: int) returns (tok: int, r: int)
      requires Valid() && tokPos >= 0 && ch0 >= EOF && offset == Cur().at
      modifies this, srcBuf, src
      ensures Valid() && Kept() && r >= EOF
      ensures (tok, Look(r, Cur())) == TokenAt(ident, source, Look(ch0, old(Cur())))
    {
      hide BufferOk, TokenOk, Step, IdentBody, NumberToken, QuotedToken;
      tok, r := ch0, ch0;
      if ident(r, 0) {
        tok := IDENT;
        r := ScanIdentifier();
      } else if IsDecimal(r) {
        tok, r := ScanNumber(r, false);
      } else if r == '"' as int {
        tok, r := ScanQuoted(r);
      } else if r == '.' as int {
        r := ReadRune();
        if IsDecimal(r) {
          tok, r := ScanNumber(r, true);
        }
      } else if r != EOF {
        r := ReadRune();
      }
    }

    method DropText()
      requires Valid()
      modifies this`tokPos
      ensures Valid() && tokPos == -1
    {
      tokPos := -1;
    }

    /** Past white space and comments, to the start of a token. */
    method SkipToToken(ch0: int) returns (r: int)
      requires Valid() && ch0 >= EOF
      modifies this, srcBuf, src
      ensures Valid() && r >= EOF && tokPos >= 0
      ensures Look(r, Cur()) == Skip(ident, source, Look(ch0, old(Cur())))
      ensures offset == Cur().at && (tokLine, tokColumn) == Place(Cur())
    {
      hide BufferOk, TokenOk, Step, CommentBody, SkipSpace, Skip, Place, Cur, IsSpace;
      r := ch0;
      ghost var l0 := Look(ch0, Cur());
      ghost var l := l0;
      DropText();
      while true
        invariant Valid() && r >= EOF && l == Look(r, Cur())
        invariant Skip(ident, source, l) == Skip(ident, source, l0)
        decreases Left(source, l)
      {
        SkipUnfolds(ident, source, l);
        r := SkipSpaces(r);
        ghost var l2 := Look(r, Cur());
        StartToken(l2);
        if r != '#' as int || ident(r, 0) {
          assert l2 == Skip(ident, source, l0);
          return;
        }
        DropText();
        assert Cur() == l2.cur;
        l := CommentBody(source, ScannerSpec.Next(source, l2));
        r := ScanComment();
      }
    }

    method Scan() returns (tok: int)
      requires Ready()
      modifies this, srcBuf, src
      ensures Ready() && tokPos >= 0 && tokEnd == srcPos - lastCharLen
      ensures Token(tok, offset, Cur().at, (tokLine, tokColumn), Ahead()) ==
              ScannerSpec.Scan(ident, source, old(Ahead()))
      ensures ToldByText(old(Ahead()), Token(tok, offset, Cur().at, (tokLine, tokColumn), Ahead()))
    {
      hide BufferOk, TokenOk, Step, TokenAt, Skip, First, Place, Cur, ToldByText;
      ghost var l0 := Ahead();
      ScanIsTold(l0);
      var c := Peek();
      c := SkipToToken(c);
      assert Look(c, Cur()) == Skip(ident, source, l0);
      tok := ScanRest(c, l0);
    }

    /** The token is what its characters say: after white space and comments if a character is looked at, and in any
        case if it is a number. */
    ghost predicate ToldByText(before: Look, t: Token) {
      && (InSync(source, before) ==> TokenKinds.ComesNext(ident, source, before.cur.at, t))
      && (source != [] && ScannerRuns.Startable(source, before) && (t.kind == INT || t.kind == FLOAT) ==>
            NumberTokens.NumberTokenOk(source, t))
    }

    lemma ScanIsTold(before: Look)
      ensures ToldByText(before, ScannerSpec.Scan(ident, source, before))
    {
      hide ScannerSpec.Scan, TokenKinds.ComesNext, NumberTokens.NumberTokenOk, InSync, ScannerRuns.Startable;
      if InSync(source, before) {
        TokenKinds.ScanIs(ident, source, before);
      }
      var t := ScannerSpec.Scan(ident, source, before);
      if source != [] && ScannerRuns.Startable(source, before) && (t.kind == INT || t.kind == FLOAT) {
        TokenKinds.OneNumberIsRead(ident, source, before);
      }
    }

    /** From the start of the token on. */
    method ScanRest(c: int, ghost l0: Look) returns (tok: int)
      requires Valid() && c >= EOF && tokPos >= 0 && Look(c, Cur()) == Skip(ident, source, l0)
      requires offset == Cur().at && (tokLine, tokColumn) == Place(Cur())
      modifies this, srcBuf, src
      ensures Ready() && tokPos >= 0 && tokEnd == srcPos - lastCharLen
      ensures Token(tok, offset, Cur().at, (tokLine, tokColumn), Ahead()) == ScannerSpec.Scan(ident, source, l0)
    {
      hide BufferOk, TokenOk, Step, TokenAt, Skip, First, Place, Cur, ScannerSpec.Scan;
      ghost var l := Look(c, Cur());
      var next;
      tok, next := ScanToken(c);
      ScanSteps(ident, source, l0, l, tok, Look(next, Cur()));
      EndToken(next);
    }

    /** The token ends before the character looked at. */
    method EndToken(c: int)
      requires Valid() && c >= EOF
      modifies this`tokEnd, this`ch
      ensures Ready() && tokEnd == srcPos - lastCharLen && ch == c && Ahead() == Look(c, Cur())
    {
      tokEnd := srcPos - lastCharLen;
      ch := c;
    }
  }

  lemma ScanSteps(ident: Identifies, src: seq<byte>, l0: Look, l: Look, tok: int, after: Look)
    requires l == Skip(ident, src, l0) && (tok, after) == TokenAt(ident, src, l)
    ensures ScannerSpec.Scan(ident, src, l0) == Token(tok, l.cur.at, after.cur.at, Place(l.cur), after)
  {
  }

  lemma SkipUnfolds(ident: Identifies, src: seq<byte>, l: Look)
    ensures (var l2 := SkipSpace(src, l);
             Left(src, l2) <= Left(src, l) && !IsSpace(l2.ch)
             && Skip(ident, src, l) ==
                if l2.ch == '#' as int && !ident(l2.ch, 0) then Skip(ident, src, CommentBody(src, Next(src, l2)))
                else l2)
  {
  }

  /** What digits and separators came before is kept; the run goes on alike. */
  lemma {:induction false} DigitsAdd(src: seq<byte>, base: int, l: Look, invalid: int, digit: bool, sep: bool)
    ensures (var r := Digits(src, base, DigitRun(l, invalid, false, false));
             Digits(src, base, DigitRun(l, invalid, digit, sep)) == r.(digit := r.digit || digit, sep := r.sep || sep))
    decreases Left(src, l)
  {
    if InRun(base, l.ch) {
      var l2 := Next(src, l);
      var bad := if base <= 10 && l.ch != '_' as int && l.ch >= '0' as int + base &&
                 invalid == 0 then l.ch else invalid;
      DigitsAdd(src, base, l2, bad, l.ch != '_' as int, l.ch == '_' as int);
      DigitsAdd(src, base, l2, bad, digit || l.ch != '_' as int, sep || l.ch == '_' as int);
    }
  }

  /** The first separator that does not stand between digits. */
  method InvalidSep(x: seq<byte>) returns (k: int)
    ensures k == -1 <==> !BadSeparator(x)
    ensures k != -1 ==> 0 <= k < |x| && BadSeparatorAt(x, k) && forall j :: 0 <= j < k ==> !BadSeparatorAt(x, j)
  {
    var hex, d, i := false, '.', 0;
    if |x| >= 2 && x[0] as int == '0' as int {
      hex := PrefixOf(x[1]) == Hex;
      if PrefixOf(x[1]) != Zero {
        d, i := '0', 2;
      }
    }
    while i < |x|
      invariant i <= |x| && hex == (HasPrefix(x) && PrefixOf(x[1]) == Hex) && (HasPrefix(x) ==> i >= 2)
      invariant d == if DigitAt(x, i - 1) then '0' else if SeparatorAt(x, i - 1) then '_' else '.'
      invariant SeparatorAt(x, i - 1) ==> DigitAt(x, i - 2)
      invariant forall j :: 0 <= j < i - 1 ==> !BadSeparatorAt(x, j)
    {
      var p := d;
      if x[i] as int == '_' as int {
        d := '_';
        if p != '0' {
          assert BadSeparatorAt(x, i);
          return i;
        }
      } else if IsDecimal(x[i]) || (hex && IsHex(x[i])) {
        d := '0';
      } else {
        if p == '_' {
          assert BadSeparatorAt(x, i - 1);
          return i - 1;
        }
        d := '.';
      }
      i := i + 1;
    }
    if d == '_' {
      assert BadSeparatorAt(x, |x| - 1);
      return |x| - 1;
    }
    return -1;
  }

  lemma AsciiDecodes(p: seq<byte>)
    requires p != [] && p[0] < RUNE_SELF
    ensures DecodeRune(p) == (p[0], 1)
  {
  }

  /** The buffer has enough of the rest of the source to decode its first character. */
  lemma Decides(p: seq<byte>, rest: seq<byte>, pending: seq<byte>)
    requires rest == p + pending && (FullRune(p) || |p| >= UTF_MAX || (p != [] && pending == []))
    ensures p != [] && DecodeRune(p) == DecodeRune(rest) && rest[0] == p[0]
    ensures p[0] < RUNE_SELF ==> DecodeRune(rest) == (p[0], 1)
  {
    AsciiIsItself(rest);
    if pending == [] {
      assert p == rest;
    } else {
      FullRuneDecides(p, rest);
    }
  }
}
