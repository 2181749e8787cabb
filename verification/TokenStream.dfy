/**
 The lexer's view of the scanner: tokens without commas, one at a time.
 */
module TokenStream {
  import opened Utf8
  import opened ScannerSpec
  import opened ScannerRuns
  import Scanner

  const COMMA := ',' as int

  /** The next token that matters. */
  function Significant(ident: Identifies, src: seq<byte>, l: Look): Token
    requires src != [] && Startable(src, l)
    decreases Left(src, l)
  {
    ScanReached(ident, src, l);
    var t := Scan(ident, src, l);
    if t.kind == COMMA then Significant(ident, src, t.after) else t
  }

  lemma {:induction false} SignificantReached(ident: Identifies, src: seq<byte>, l: Look)
    requires src != [] && Startable(src, l)
    ensures (var t := Significant(ident, src, l);
             Startable(src, t.after) && t.kind != COMMA && (t.kind != EOF ==> Left(src, t.after) < Left(src, l)))
    decreases Left(src, l)
  {
    hide Scan, Startable;
    ScanReached(ident, src, l);
    var t := Scan(ident, src, l);
    if t.kind == COMMA {
      SignificantReached(ident, src, t.after);
    }
  }

  /** What the parser sees of a source, one token after another. */
  function Stream(ident: Identifies, src: seq<byte>, l: Look): seq<Token>
    requires src != [] && Startable(src, l)
    decreases Left(src, l)
  {
    SignificantReached(ident, src, l);
    var t := Significant(ident, src, l);
    if t.kind == EOF then [t] else [t] + Stream(ident, src, t.after)
  }

  function WithoutCommas(ts: seq<Token>): seq<Token> {
    if ts == [] then []
    else (if ts[0].kind == COMMA then [] else [ts[0]]) + WithoutCommas(ts[1..])
  }

  /** The parser sees all the scanner's tokens but the commas. */
  lemma {:induction false} StreamIsWithoutCommas(ident: Identifies, src: seq<byte>, l: Look)
    requires src != [] && Startable(src, l)
    ensures Stream(ident, src, l) == WithoutCommas(Tokens(ident, src, l))
    decreases Left(src, l)
  {
    hide Scan, Startable;
    ScanReached(ident, src, l);
    SignificantReached(ident, src, l);
    var t := Scan(ident, src, l);
    var ts := Tokens(ident, src, l);
    if t.kind == EOF {
      assert ts[1..] == [];
      assert WithoutCommas(ts[1..]) == [];
    } else {
      assert ts[1..] == Tokens(ident, src, t.after);
      StreamIsWithoutCommas(ident, src, t.after);
      if t.kind == COMMA {
        SameStream(ident, src, l);
      }
    }
  }

  /** A comma makes no difference. */
  lemma SameStream(ident: Identifies, src: seq<byte>, l: Look)
    requires src != [] && Startable(src, l) && Scan(ident, src, l).kind == COMMA
    ensures Startable(src, Scan(ident, src, l).after)
    ensures Stream(ident, src, l) == Stream(ident, src, Scan(ident, src, l).after)
  {
    hide Scan, Startable;
    ScanReached(ident, src, l);
  }

  class Lexer {
    const sc: Scanner.Scanner
    /** The kind of the token looked at. */
    var next: int

    constructor (sc: Scanner.Scanner)
      ensures this.sc == sc
    {
      this.sc, next := sc, EOF;
    }

    /** Where the scanner is, it can go on. */
    ghost predicate Ready()
      reads this, sc, sc.srcBuf, sc.src
    {
      sc.Ready() && sc.source != [] && Startable(sc.source, sc.Ahead())
    }

    method Consume()
      requires Ready()
      modifies this, sc, sc.srcBuf, sc.src
      ensures Ready() && sc.tokPos >= 0 && sc.tokEnd == sc.srcPos - sc.lastCharLen
      ensures Token(next, sc.offset, sc.Cur().at, (sc.tokLine, sc.tokColumn), sc.Ahead()) ==
              Significant(sc.ident, sc.source, old(sc.Ahead()))
    {
      hide Scan, Startable, Significant, First, Left;
      ghost var src, l0 := sc.source, sc.Ahead();
      ghost var l := l0;
      while true
        invariant Ready() && l == sc.Ahead() && Startable(src, l)
        invariant Significant(sc.ident, src, l) == Significant(sc.ident, src, l0)
        decreases Left(src, l)
      {
        ScanReached(sc.ident, src, l);
        SignificantUnfolds(sc.ident, src, l);
        next := sc.Scan();
        if next != COMMA {
          return;
        }
        l := Scan(sc.ident, src, l).after;
      }
    }
  }

  lemma SignificantUnfolds(ident: Identifies, src: seq<byte>, l: Look)
    requires src != [] && Startable(src, l)
    ensures (var t := Scan(ident, src, l);
             Startable(src, t.after) && Significant(ident, src, l) == if t.kind == COMMA then
               Significant(ident, src, t.after) else t)
  {
    hide Scan, Startable;
    ScanReached(ident, src, l);
  }
}
