/**
 Decoding UTF-8 one character at a time.  A byte that does not start a complete,
 well-formed encoding is a character of its own, in error, one byte wide.
 */
module Utf8 {

  type byte = x: int | 0 <= x < 256

  const RUNE_ERROR := 0xFFFD
  const RUNE_SELF := 0x80
  const UTF_MAX := 4

  /** How many bytes the first one announces; one for those that cannot come first. */
  function Announced(b: byte): (n: nat)
    ensures 1 <= n <= UTF_MAX
  {
    if 0xC2 <= b <= 0xDF then 2
    else if 0xE0 <= b <= 0xEF then 3
    else if 0xF0 <= b <= 0xF4 then 4
    else 1
  }

  /** Whether `c` may follow `b`: some second bytes would make an overlong encoding, a surrogate, or too large a
      number. */
  function SecondFits(b: byte, c: byte): bool {
    (if b == 0xE0 then 0xA0 else if b == 0xF0 then 0x90 else 0x80) <= c
      <= (if b == 0xED then 0x9F else if b == 0xF4 then 0x8F else 0xBF)
  }

  function Continues(c: byte): bool {
    0x80 <= c <= 0xBF
  }

  function Payload(c: byte): int {
    (c as int) - 0x80
  }

  /** Reading more bytes would not change what the first character is. */
  predicate FullRune(p: seq<byte>) {
    if p == [] then false
    else if |p| >= Announced(p[0]) then true
    else if |p| > 1 && !SecondFits(p[0], p[1]) then true
    else |p| > 2 && !Continues(p[2])
  }

  function DecodeRune(p: seq<byte>): (r: (int, nat))
    ensures r.0 >= 0 && r.1 <= |p| && r.1 <= UTF_MAX && (p != [] ==> r.1 >= 1)
  {
    if p == [] then (RUNE_ERROR, 0)
    else
      var b: int, n := p[0], Announced(p[0]);
      if b < RUNE_SELF then (b, 1)
      else if n == 1 || |p| < n || !SecondFits(p[0], p[1]) then (RUNE_ERROR, 1)
      else if n == 2 then ((b - 0xC0) * 0x40 + Payload(p[1]), 2)
      else if !Continues(p[2]) then (RUNE_ERROR, 1)
      else if n == 3 then ((b - 0xE0) * 0x1000 + Payload(p[1]) * 0x40 + Payload(p[2]), 3)
      else if !Continues(p[3]) then (RUNE_ERROR, 1)
      else ((b - 0xF0) * 0x40000 + Payload(p[1]) * 0x1000 + Payload(p[2]) * 0x40 + Payload(p[3]), 4)
  }

  /** Four bytes are always enough, and what follows a full character does not matter. */
  lemma FullRuneDecides(p: seq<byte>, q: seq<byte>)
    requires p <= q && (FullRune(p) || |p| >= UTF_MAX)
    ensures DecodeRune(p) == DecodeRune(q)
  {
  }

  /** Neither does what follows the bytes that the first character takes up. */
  lemma WidthDecides(p: seq<byte>, q: seq<byte>)
    requires p <= q && p != [] && DecodeRune(q).1 <= |p|
    ensures DecodeRune(p) == DecodeRune(q)
  {
  }

  /** A line feed is never part of a longer encoding, nor what an error decodes to. */
  lemma AsciiIsItself(p: seq<byte>)
    requires p != []
    ensures p[0] < RUNE_SELF ==> DecodeRune(p) == (p[0], 1)
    ensures DecodeRune(p).0 < RUNE_SELF ==> p[0] == DecodeRune(p).0
    ensures forall i :: 1 <= i < DecodeRune(p).1 ==> p[i] >= RUNE_SELF
  {
  }

  /** An ASCII character after `p` completes nothing in it. */
  lemma AsciiCompletesNothing(p: seq<byte>, q: seq<byte>)
    requires p < q && p != [] && q[|p|] < RUNE_SELF
    ensures DecodeRune(p) == DecodeRune(q)
  {
  }

  // ----- encoding -----

  /** The numbers that are characters: all up to the largest but the surrogates. */
  predicate IsCharacter(ch: int) {
    0 <= ch < 0xD800 || 0xE000 <= ch <= 0x10FFFF
  }

  /** Section 3 of RFC 3629: six bits go into each byte but the first. */
  function Encode(ch: int): (p: seq<byte>)
    requires IsCharacter(ch)
    ensures 1 <= |p| <= UTF_MAX
  {
    var q1 := ch / 0x40;
    var q2 := q1 / 0x40;
    var q3 := q2 / 0x40;
    if ch < 0x80 then [ch]
    else if ch < 0x800 then [0xC0 + q1, 0x80 + ch % 0x40]
    else if ch < 0x10000 then [0xE0 + q2, 0x80 + q1 % 0x40, 0x80 + ch % 0x40]
    else [0xF0 + q3, 0x80 + q2 % 0x40, 0x80 + q1 % 0x40, 0x80 + ch % 0x40]
  }

  lemma SixBits(q: int, r: int)
    requires 0 <= r < 0x40
    ensures (q * 0x40 + r) / 0x40 == q && (q * 0x40 + r) % 0x40 == r
  {
  }

  /** The number with the given bits is what decoding its encoding gives. */
  lemma DecodesBits(p: seq<byte>, x: int, y: int, z: int, w: int)
    requires 0 <= y < 0x40 && 0 <= z < 0x40 && 0 <= w < 0x40
    ensures |p| >= 2 && p[0] == 0xC0 + x && p[1] == 0x80 + w && 2 <= x < 0x20 ==> DecodeRune(p) == (x * 0x40 + w, 2)
    ensures |p| >= 3 && p[0] == 0xE0 + x && p[1] == 0x80 + z && p[2] == 0x80 + w && 0 <= x < 0x10 &&
            IsCharacter(x * 0x1000 + z * 0x40 + w) && 0x800 <= x * 0x1000 + z * 0x40 + w ==>
              DecodeRune(p) == (x * 0x1000 + z * 0x40 + w, 3)
    ensures |p| >= 4 && p[0] == 0xF0 + x && p[1] == 0x80 + y && p[2] == 0x80 + z && p[3] == 0x80 + w && 0 <= x < 5 &&
            0x10000 <= x * 0x40000 + y * 0x1000 + z * 0x40 + w <= 0x10FFFF ==>
              DecodeRune(p) == (x * 0x40000 + y * 0x1000 + z * 0x40 + w, 4)
  {
  }

  lemma EncodedIsDecoded(ch: int, rest: seq<byte>)
    requires IsCharacter(ch)
    ensures DecodeRune(Encode(ch) + rest) == (ch, |Encode(ch)|)
  {
    var p := Encode(ch) + rest;
    var q1 := ch / 0x40;
    var q2 := q1 / 0x40;
    var q3 := q2 / 0x40;
    if ch < 0x80 {
      AsciiIsItself(p);
    } else {
      hide DecodeRune;
      assert ch == q1 * 0x40 + ch % 0x40 && q1 == q2 * 0x40 + q1 % 0x40 && q2 == q3 * 0x40 + q2 % 0x40;
      DecodesBits(p, if ch < 0x800 then q1 else if ch < 0x10000 then q2 else q3, q2 % 0x40, q1 % 0x40, ch % 0x40);
    }
  }

  lemma DecodedIsEncoded(p: seq<byte>)
    requires p != [] && DecodeRune(p) != (RUNE_ERROR, 1)
    ensures (var (ch, w) := DecodeRune(p); IsCharacter(ch) && p[..w] == Encode(ch))
  {
    var (ch, w) := DecodeRune(p);
    if w == 1 {
      assert p[..1] == [p[0]];
    } else if w == 2 {
      TwoEncoded(p);
    } else if w == 3 {
      ThreeEncoded(p);
    } else {
      FourEncoded(p);
    }
  }

  lemma TwoEncoded(p: seq<byte>)
    requires p != [] && DecodeRune(p).1 == 2
    ensures IsCharacter(DecodeRune(p).0) && p[..2] == Encode(DecodeRune(p).0)
  {
    SixBits(p[0] - 0xC0, Payload(p[1]));
    assert p[..2] == [p[0], p[1]];
  }

  lemma ThreeEncoded(p: seq<byte>)
    requires p != [] && DecodeRune(p).1 == 3
    ensures IsCharacter(DecodeRune(p).0) && p[..3] == Encode(DecodeRune(p).0)
  {
    var x, y, z := p[0] - 0xE0, Payload(p[1]), Payload(p[2]);
    SixBits(x, y);
    SixBits(x * 0x40 + y, z);
    assert DecodeRune(p).0 == (x * 0x40 + y) * 0x40 + z;
    assert p[..3] == [p[0], p[1], p[2]];
  }

  lemma FourEncoded(p: seq<byte>)
    requires p != [] && DecodeRune(p).1 == 4
    ensures IsCharacter(DecodeRune(p).0) && p[..4] == Encode(DecodeRune(p).0)
  {
    var x, y, z, w := p[0] - 0xF0, Payload(p[1]), Payload(p[2]), Payload(p[3]);
    SixBits(x, y);
    SixBits(x * 0x40 + y, z);
    SixBits((x * 0x40 + y) * 0x40 + z, w);
    assert DecodeRune(p).0 == ((x * 0x40 + y) * 0x40 + z) * 0x40 + w;
    assert p[..4] == [p[0], p[1], p[2], p[3]];
  }

  /** Decoding gives a character exactly if its encoding comes first, and otherwise an error one byte wide. */
  lemma DecodeIff(p: seq<byte>, ch: int)
    requires p != [] && IsCharacter(ch)
    ensures DecodeRune(p) == (ch, |Encode(ch)|) <==> Encode(ch) <= p
    ensures DecodeRune(p) == (RUNE_ERROR, 1) <==> forall c :: IsCharacter(c) ==> !(Encode(c) <= p)
  {
    hide DecodeRune, Encode;
    forall c | IsCharacter(c) && Encode(c) <= p
      ensures DecodeRune(p) == (c, |Encode(c)|) && DecodeRune(p) != (RUNE_ERROR, 1)
    {
      EncodedIsDecoded(c, p[|Encode(c)|..]);
      assert Encode(c) + p[|Encode(c)|..] == p;
      ErrorIsLonger();
    }
    if DecodeRune(p) != (RUNE_ERROR, 1) {
      DecodedIsEncoded(p);
      var (c, w) := DecodeRune(p);
      assert Encode(c) <= p;
    }
    ErrorIsLonger();
  }

  lemma ErrorIsLonger()
    ensures |Encode(RUNE_ERROR)| == 3
  {
  }
}
