/**
 Where the scanner says a token is: line and column are those of the source
 before it, counted anew.
 */
module ScannerPositions {
  import opened Utf8
  import opened ScannerSpec

  // ----- counting in a prefix of the source -----

  function Newlines(s: seq<byte>): nat {
    if s == [] then 0 else Newlines(s[..|s| - 1]) + if s[|s| - 1] == 10 then 1 else 0
  }

  /** Where the last line of `s` starts. */
  function LineStart(s: seq<byte>): (n: nat)
    ensures n <= |s|
  {
    if s == [] then 0 else if s[|s| - 1] == 10 then |s| else LineStart(s[..|s| - 1])
  }

  function RuneCount(s: seq<byte>): nat {
    if s == [] then 0 else 1 + RuneCount(s[DecodeRune(s).1..])
  }

  /** Line and column of the byte at `p`, both start 1; a column is a character. */
  function LineAndColumn(src: seq<byte>, p: nat): (int, int)
    requires p <= |src|
  {
    (1 + Newlines(src[..p]), 1 + RuneCount(src[LineStart(src[..p])..p]))
  }

  // ----- whole characters -----

  /** Decoding from `start` on comes by `stop`. */
  ghost predicate Aligned(src: seq<byte>, start: nat, stop: nat)
    requires start <= stop <= |src|
    decreases stop - start
  {
    start == stop || (var w := DecodeRune(src[start..]).1; start + w <= stop && Aligned(src, start + w, stop))
  }

  lemma {:induction false} AlignedOneMore(src: seq<byte>, start: nat, stop: nat)
    requires start <= stop < |src| && Aligned(src, start, stop)
    ensures stop + DecodeRune(src[stop..]).1 <= |src|
    ensures Aligned(src, start, stop + DecodeRune(src[stop..]).1)
    decreases stop - start
  {
    hide DecodeRune;
    if start < stop {
      AlignedOneMore(src, start + DecodeRune(src[start..]).1, stop);
    }
  }

  lemma {:induction false} CountOneMore(src: seq<byte>, start: nat, stop: nat)
    requires start <= stop < |src| && Aligned(src, start, stop)
    ensures stop + DecodeRune(src[stop..]).1 <= |src|
    ensures RuneCount(src[start..stop + DecodeRune(src[stop..]).1]) == RuneCount(src[start..stop]) + 1
    decreases stop - start
  {
    hide DecodeRune;
    var w := DecodeRune(src[stop..]).1;
    var longer := src[start..stop + w];
    if start == stop {
      assert longer <= src[stop..];
      WidthDecides(longer, src[stop..]);
      assert longer[w..] == [];
    } else {
      var v := DecodeRune(src[start..]).1;
      CountOneMore(src, start + v, stop);
      assert src[start..stop] <= src[start..] && longer <= src[start..];
      WidthDecides(src[start..stop], src[start..]);
      WidthDecides(longer, src[start..]);
      assert longer[v..] == src[start + v..stop + w];
      assert src[start..stop][v..] == src[start + v..stop];
    }
  }

  /** A character other than a line feed stays on the line. */
  lemma {:induction false} SameLine(src: seq<byte>, p: nat, w: nat)
    requires p + w <= |src| && forall i :: p <= i < p + w ==> src[i] != 10
    ensures Newlines(src[..p + w]) == Newlines(src[..p]) && LineStart(src[..p + w]) == LineStart(src[..p])
  {
    if w > 0 {
      SameLine(src, p, w - 1);
      assert src[..p + w][..p + w - 1] == src[..p + w - 1];
    }
  }

  lemma NextLine(src: seq<byte>, p: nat)
    requires p < |src| && src[p] == 10
    ensures Newlines(src[..p + 1]) == Newlines(src[..p]) + 1 && LineStart(src[..p + 1]) == p + 1
  {
    assert src[..p + 1][..p] == src[..p];
  }

  // ----- the scanner's counts -----

  ghost predicate Initial(c: Cursor) {
    c.at == 0 && c.width == 0 && c.column == 0 && c.line == 1 && c.lastLineLen == 0
  }

  /** The counts kept are those of the source up to the end of the character looked at. */
  ghost predicate Placed(src: seq<byte>, c: Cursor) {
    var e := c.at + c.width;
    && e <= |src|
    && c.line == 1 + Newlines(src[..e])
    && Aligned(src, LineStart(src[..e]), e)
    && (c.width == 0 ==> c.at == |src| && c.column == 1 + RuneCount(src[LineStart(src[..e])..e]))
    && (c.width > 0 ==>
          if src[c.at] == 10 then c.width == 1 && c.column == 0 && c.lastLineLen == LineAndColumn(src, c.at).1
          else c.column == RuneCount(src[LineStart(src[..e])..e]) && OnOneLine(src, c))
  }

  ghost predicate OnOneLine(src: seq<byte>, c: Cursor) {
    && c.at + c.width <= |src| && (forall i :: c.at <= i < c.at + c.width ==> src[i] != 10)
    && Aligned(src, LineStart(src[..c.at]), c.at)
    && c.width > 0 && DecodeRune(src[c.at..]).1 == c.width
  }

  /** The character looked at is the one at the cursor. */
  ghost predicate InSync(src: seq<byte>, l: Look) {
    && l.cur.at + l.cur.width <= |src|
    && if l.cur.width == 0 then l.ch == EOF && l.cur.at == |src|
       else DecodeRune(src[l.cur.at..]) == (l.ch, l.cur.width)
  }

  ghost predicate Good(src: seq<byte>, l: Look) {
    Placed(src, l.cur) && InSync(src, l)
  }

  lemma StepAtEnd(src: seq<byte>, c: Cursor)
    requires src != [] && Placed(src, c) && c.at + c.width == |src|
    ensures Good(src, Step(src, c))
  {
    hide Aligned, RuneCount, Newlines, LineStart, DecodeRune;
    if c.width > 0 && src[c.at] == 10 {
      assert c.at + 1 == |src|;
      NextLine(src, c.at);
      assert src[|src|..|src|] == [];
      CountNone();
    }
  }

  lemma CountNone()
    ensures RuneCount([]) == 0
  {
  }

  lemma StepInside(src: seq<byte>, c: Cursor)
    requires (Initial(c) || Placed(src, c)) && c.at + c.width < |src|
    ensures Good(src, Step(src, c))
  {
    hide Aligned, RuneCount, Newlines, LineStart, DecodeRune, Placed;
    if src[c.at + c.width] == 10 {
      StepOntoLineFeed(src, c);
    } else {
      StepAlong(src, c);
    }
  }

  lemma StepOntoLineFeed(src: seq<byte>, c: Cursor)
    requires (Initial(c) || Placed(src, c)) && c.at + c.width < |src| && src[c.at + c.width] == 10
    ensures Good(src, Step(src, c))
  {
    hide Aligned, RuneCount, Newlines, LineStart, DecodeRune;
    var n := c.at + c.width;
    Before(src, c);
    AsciiIsItself(src[n..]);
    AlignedOneMore(src, LineStart(src[..n]), n);
    CountOneMore(src, LineStart(src[..n]), n);
    NextLine(src, n);
    AlignedHere(src, n + 1);
  }

  lemma StepAlong(src: seq<byte>, c: Cursor)
    requires (Initial(c) || Placed(src, c)) && c.at + c.width < |src| && src[c.at + c.width] != 10
    ensures Good(src, Step(src, c))
  {
    hide Aligned, RuneCount, Newlines, LineStart, DecodeRune, Placed, OnOneLine, Step;
    var n := c.at + c.width;
    var w := DecodeRune(src[n..]).1;
    Before(src, c);
    AlignedOneMore(src, LineStart(src[..n]), n);
    CountOneMore(src, LineStart(src[..n]), n);
    OneCharacter(src, n);
    SameLine(src, n, w);
    StepAcross(src, c);
    PlacedAcross(src, n, w, Step(src, c).cur);
  }

  /** A character that is no line feed has none in it. */
  lemma OneCharacter(src: seq<byte>, n: nat)
    requires n < |src| && src[n] != 10
    ensures DecodeRune(src[n..]).1 > 0 && n + DecodeRune(src[n..]).1 <= |src|
    ensures forall i :: n <= i < n + DecodeRune(src[n..]).1 ==> src[i] != 10
  {
    hide DecodeRune;
    AsciiIsItself(src[n..]);
    assert forall i :: n < i < n + DecodeRune(src[n..]).1 ==> src[i] == src[n..][i - n];
  }

  lemma StepAcross(src: seq<byte>, c: Cursor)
    requires c.at + c.width < |src| && src[c.at + c.width] != 10
    ensures (var n, l := c.at + c.width, Step(src, c);
             && (l.ch, l.cur.width) == DecodeRune(src[n..])
             && l.cur == c.(at := n, width := l.cur.width, column := c.column + 1, errors := l.cur.errors))
  {
    hide DecodeRune;
    AsciiIsItself(src[c.at + c.width..]);
  }

  lemma PlacedAcross(src: seq<byte>, n: nat, w: nat, d: Cursor)
    requires n < |src| && n + w <= |src| && w > 0 && w == DecodeRune(src[n..]).1 && d.at == n && d.width == w
    requires (forall i :: n <= i < n + w ==> src[i] != 10)
    requires LineStart(src[..n + w]) == LineStart(src[..n]) && Newlines(src[..n + w]) == Newlines(src[..n])
    requires Aligned(src, LineStart(src[..n]), n) && Aligned(src, LineStart(src[..n]), n + w)
    requires d.line == 1 + Newlines(src[..n]) && d.column == RuneCount(src[LineStart(src[..n])..n + w])
    ensures Placed(src, d)
  {
    hide Aligned, RuneCount, Newlines, LineStart, DecodeRune;
  }

  lemma AlignedHere(src: seq<byte>, p: nat)
    requires p <= |src|
    ensures Aligned(src, p, p)
  {
  }

  /** Before the next character the counts are those of the source up to there. */
  lemma Before(src: seq<byte>, c: Cursor)
    requires (Initial(c) || Placed(src, c)) && c.at + c.width < |src|
    ensures (var n := c.at + c.width;
             c.line == 1 + Newlines(src[..n]) && Aligned(src, LineStart(src[..n]), n)
             && c.column == RuneCount(src[LineStart(src[..n])..n]))
  {
    hide DecodeRune;
    var n := c.at + c.width;
    if Initial(c) {
      assert src[..0] == [];
    } else if src[c.at] == 10 {
      NextLine(src, c.at);
      assert src[n..n] == [];
    }
  }

  lemma StepIsGood(src: seq<byte>, c: Cursor)
    requires src != [] && (Initial(c) || Placed(src, c))
    ensures Good(src, Step(src, c))
  {
    hide Placed, Good, Step;
    if c.at + c.width < |src| {
      StepInside(src, c);
    } else {
      PlacedWithin(src, c);
      StepAtEnd(src, c);
    }
  }

  lemma PlacedWithin(src: seq<byte>, c: Cursor)
    requires Initial(c) || Placed(src, c)
    ensures c.at + c.width <= |src|
  {
  }

  /** The position reported is that of the character looked at. */
  lemma PlaceIsRight(src: seq<byte>, c: Cursor)
    requires src != [] && Placed(src, c)
    ensures c.at <= |src| && Place(c) == LineAndColumn(src, c.at)
  {
    hide DecodeRune, RuneCount, Newlines, LineStart, Aligned;
    if c.width > 0 {
      if src[c.at] == 10 {
        NextLine(src, c.at);
      } else {
        SameLine(src, c.at, c.width);
        CountOneMore(src, LineStart(src[..c.at]), c.at);
      }
    }
  }

  /** So is the position asked for between tokens, from the start on. */
  lemma PosIsRight(src: seq<byte>, c: Cursor)
    requires src != [] && (Placed(src, c) || Initial(c))
    ensures c.at <= |src|
    ensures LineAndColumn(src, c.at) ==
            if c.column > 0 then (c.line, c.column) else if c.lastLineLen > 0 then (c.line - 1, c.lastLineLen)
            else (1, 1)
  {
    if Placed(src, c) {
      PlaceIsRight(src, c);
    } else {
      assert src[..0] == [] && src[0..0] == [];
    }
  }

  /** In a source without a byte the only token is said to be at line 0, column 0. */
  lemma EmptySourceHasNoPlace(ident: Identifies)
    ensures Scan(ident, [], First([])).kind == EOF && Scan(ident, [], First([])).place == (0, 0)
    ensures Scan(ident, [], First([])).place != LineAndColumn([], 0)
  {
  }
}
