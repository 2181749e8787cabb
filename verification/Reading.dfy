/**
 From the bytes of a source to the document the parser makes of it.
 */
module Reading {
  import opened Wrappers
  import opened Query
  import opened Utf8
  import opened ScannerSpec
  import opened ScannerRuns
  import opened TokenStream
  import Syntax

  /** A string of the source language holds bytes, here one in each character. */
  function Chars(bytes: seq<byte>): (s: string)
    ensures |s| == |bytes|
  {
    seq(|bytes|, i requires 0 <= i < |bytes| => bytes[i] as char)
  }

  function Bytes(s: string): (bytes: seq<byte>)
    ensures |bytes| == |s|
  {
    seq(|s|, i requires 0 <= i < |s| => s[i] as int % 256)
  }

  lemma BytesOfChars(bytes: seq<byte>)
    ensures Bytes(Chars(bytes)) == bytes
  {
  }

  lemma BytesJoined(s: string, t: string)
    ensures Bytes(s + t) == Bytes(s) + Bytes(t)
  {
  }

  // ----- tokens for the parser -----

  function TextOf(src: seq<byte>, t: Token): string {
    if t.from <= t.to <= |src| then Chars(src[t.from..t.to]) else ""
  }

  /** A token that is no literal stands for its character. */
  function TokenOf(src: seq<byte>, t: Token): Syntax.Token {
    if t.kind == IDENT then Syntax.Lit(IdentLit, TextOf(src, t))
    else if t.kind == INT then Syntax.Lit(IntLit, TextOf(src, t))
    else if t.kind == FLOAT then Syntax.Lit(FloatLit, TextOf(src, t))
    else if t.kind == STRING then Syntax.Lit(StringLit, TextOf(src, t))
    else if t.kind == BLOCK_STRING then Syntax.Lit(BlockStringLit, TextOf(src, t))
    else Syntax.Punct(CharOf(t.kind))
  }

  /** Decoding yields no surrogates and nothing beyond the last character. */
  function CharOf(ch: int): char {
    if 0 <= ch < 0xD800 || 0xE000 <= ch < 0x11_0000 then ch as char else '\0'
  }

  /** The tokens up to the end of the source. */
  function TokensOf(src: seq<byte>, ts: seq<Token>): seq<Syntax.Token> {
    if ts == [] || ts[0].kind == EOF then [] else [TokenOf(src, ts[0])] + TokensOf(src, ts[1..])
  }

  /** What the parser sees of a source. */
  function Lexed(ident: Identifies, src: seq<byte>): seq<Syntax.Token> {
    if src == [] then []
    else
      FirstIsStartable(src);
      TokensOf(src, Stream(ident, src, First(src)))
  }

  /** The document of a source, if it has no syntax error. */
  function ReadDocument(ident: Identifies, src: seq<byte>): Option<Document> {
    Syntax.Parse(Lexed(ident, src))
  }
}
