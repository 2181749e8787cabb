/**
 Indenting a text line by line.
 */
module Indentation {

  /** The text between line feeds. */
  function Split(s: string): (lines: seq<string>)
    ensures lines != []
  {
    if s == "" then [""]
    else
      var lines := Split(s[1..]);
      if s[0] == '\n' then [""] + lines else [[s[0]] + lines[0]] + lines[1..]
  }

  function IndentLines(lines: seq<string>, indent: string): string {
    if lines == [] then "" else indent + lines[0] + "\n" + IndentLines(lines[1..], indent)
  }

  lemma {:induction false} IndentLinesJoined(a: seq<string>, b: seq<string>, indent: string)
    ensures IndentLines(a + b, indent) == IndentLines(a, indent) + IndentLines(b, indent)
  {
    if a == [] {
      assert a + b == b;
    } else {
      assert (a + b)[1..] == a[1..] + b;
      IndentLinesJoined(a[1..], b, indent);
    }
  }

  predicate EndsLine(s: string) {
    s != "" && s[|s| - 1] == '\n'
  }

  /** Every line with its indentation; a text that does not end its last line does not then. */
  function Indented(text: string, indent: string): string {
    if EndsLine(text) then IndentLines(Split(text[..|text| - 1]), indent)
    else
      var lines := IndentLines(Split(text), indent);
      lines[..|lines| - 1]
  }

  method Indent(text: string, indent: string) returns (result: string)
    ensures result == Indented(text, indent)
  {
    hide Split;
    var lines := Split(if EndsLine(text) then text[..|text| - 1] else text);
    result := "";
    for i := 0 to |lines|
      invariant result == IndentLines(lines[..i], indent)
    {
      assert lines[..i + 1] == lines[..i] + [lines[i]];
      IndentLinesJoined(lines[..i], [lines[i]], indent);
      result := result + indent + lines[i] + "\n";
    }
    assert lines[..|lines|] == lines;
    if !EndsLine(text) {
      result := result[..|result| - 1];
    }
  }

  /** The text with the indentation after every line feed. */
  function Hang(s: string, indent: string): string {
    if s == "" then "" else [s[0]] + (if s[0] == '\n' then indent else "") + Hang(s[1..], indent)
  }

  lemma {:induction false} HangJoined(s: string, t: string, indent: string)
    ensures Hang(s + t, indent) == Hang(s, indent) + Hang(t, indent)
  {
    if s == "" {
      assert s + t == t;
    } else {
      assert (s + t)[1..] == s[1..] + t;
      HangJoined(s[1..], t, indent);
    }
  }

  /** A text without line feeds stays as it is. */
  lemma {:induction false} HangNothing(s: string, indent: string)
    requires '\n' !in s
    ensures Hang(s, indent) == s
  {
    if s != "" {
      HangNothing(s[1..], indent);
    }
  }

  lemma {:induction false} SplitHangs(s: string, indent: string)
    ensures IndentLines(Split(s), indent) == indent + Hang(s, indent) + "\n"
  {
    if s == "" {
      NothingHangs(indent);
    } else {
      hide IndentLines;
      var rest := s[1..];
      var lines := Split(rest);
      SplitHangs(rest, indent);
      if s[0] == '\n' {
        NewLineHangs(lines, Hang(rest, indent), indent);
        assert Hang(s, indent) == "\n" + indent + Hang(rest, indent);
      } else {
        CharHangs(s[0], lines, Hang(rest, indent), indent);
        assert Hang(s, indent) == [s[0]] + "" + Hang(rest, indent) == [s[0]] + Hang(rest, indent);
      }
    }
  }

  lemma NothingHangs(indent: string)
    ensures IndentLines([""], indent) == indent + Hang("", indent) + "\n"
  {
    assert [""][1..] == [];
    assert indent + "" + "\n" + "" == indent + "" + "\n";
  }

  lemma NewLineHangs(lines: seq<string>, hung: string, indent: string)
    requires IndentLines(lines, indent) == indent + hung + "\n"
    ensures IndentLines([""] + lines, indent) == indent + ("\n" + indent + hung) + "\n"
  {
    assert ([""] + lines)[1..] == lines;
    assert indent + "" + "\n" + (indent + hung + "\n") == indent + ("\n" + indent + hung) + "\n";
  }

  lemma CharHangs(c: char, lines: seq<string>, hung: string, indent: string)
    requires lines != [] && IndentLines(lines, indent) == indent + hung + "\n"
    ensures IndentLines([[c] + lines[0]] + lines[1..], indent) == indent + ([c] + hung) + "\n"
  {
    var more := lines[0] + "\n" + IndentLines(lines[1..], indent);
    assert indent + more == indent + lines[0] + "\n" + IndentLines(lines[1..], indent);
    assert indent + (hung + "\n") == indent + hung + "\n";
    SameTail(indent, more, hung + "\n");
    var longer := [[c] + lines[0]] + lines[1..];
    assert longer[1..] == lines[1..];
    assert indent + ([c] + lines[0]) + "\n" + IndentLines(lines[1..], indent) == indent + ([c] + more);
    assert indent + ([c] + (hung + "\n")) == indent + ([c] + hung) + "\n";
  }

  lemma SameTail(a: string, b: string, c: string)
    requires a + b == a + c
    ensures b == c
  {
    assert (a + b)[|a|..] == b && (a + c)[|a|..] == c;
  }

  /** A text of whole lines is indented line by line. */
  lemma IndentedLine(s: string, indent: string)
    ensures Indented(s + "\n", indent) == indent + Hang(s, indent) + "\n"
  {
    assert (s + "\n")[..|s|] == s;
    SplitHangs(s, indent);
  }

  lemma HangLine(s: string, t: string, indent: string)
    ensures Hang(s + "\n" + t, indent) == Hang(s, indent) + "\n" + (indent + Hang(t, indent))
  {
    assert s + "\n" + t == s + ("\n" + t);
    HangJoined(s, "\n" + t, indent);
    assert ("\n" + t)[1..] == t;
  }

  lemma IndentedLines(s: string, more: string, indent: string)
    requires EndsLine(more)
    ensures Indented(s + "\n" + more, indent) == Indented(s + "\n", indent) + Indented(more, indent)
  {
    hide Indented, Hang;
    var t := more[..|more| - 1];
    assert more == t + "\n";
    var a, b := Hang(s, indent), indent + Hang(t, indent) + "\n";
    IndentedLine(s, indent);
    IndentedLine(t, indent);
    HangLine(s, t, indent);
    calc {
      Indented(s + "\n" + more, indent);
      { assert s + "\n" + more == (s + "\n" + t) + "\n"; IndentedLine(s + "\n" + t, indent); }
      indent + (a + "\n" + (indent + Hang(t, indent))) + "\n";
      (indent + a + "\n") + b;
    }
  }
}
