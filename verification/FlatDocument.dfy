/**
 When indentation leaves a document as it is: exactly if no literal that is
 indented has a line feed before its last character.
 */
module FlatDocument {
  import opened Query
  import opened Syntax
  import opened Printing
  import opened Indentation
  import opened TextScan
  import opened PrintedText
  import opened IndentedDocument
  import PrintedTokens

  predicate OneLine(text: string) {
    text == "" || '\n' !in text[..|text| - 1]
  }

  ghost predicate AllOneLine(ts: seq<Token>) {
    forall t :: t in ts && t.Lit? ==> OneLine(t.text)
  }

  /** Only literals of directives of operations and fragments may go over several lines: they are not indented. */
  ghost predicate OperationFlat(op: Operation) {
    AllOneLine(PrintVariables(op.vars)) && AllOneLine(PrintSelectionSet(op.selections))
  }

  ghost predicate Flat(doc: Document) {
    && (forall op :: op in doc.operations ==> OperationFlat(op))
    && (forall f :: f in doc.fragments ==> AllOneLine(PrintSelectionSet(f.selections)))
  }

  // ----- how much text -----

  function Size(ts: seq<Token>): nat {
    if ts == [] then 0 else |TokenText(ts[0])| + Size(ts[1..])
  }

  lemma {:induction false} SizeJoined(a: seq<Token>, b: seq<Token>)
    ensures Size(a + b) == Size(a) + Size(b)
  {
    if a == [] {
      assert a + b == b;
    } else {
      assert (a + b)[1..] == a[1..] + b;
      SizeJoined(a[1..], b);
    }
  }

  lemma {:induction false} HangGrows(s: string)
    ensures |Hang(s, INDENT)| >= |s| && ('\n' in s ==> |Hang(s, INDENT)| > |s|)
  {
    if s != "" {
      HangGrows(s[1..]);
      assert s == [s[0]] + s[1..];
    }
  }

  lemma TextGrows(text: string)
    ensures |HangText(text)| >= |text|
    ensures OneLine(text) ==> HangText(text) == text
    ensures !OneLine(text) ==> |HangText(text)| > |text| && !OneLine(HangText(text))
  {
    if text != "" {
      var most, last := text[..|text| - 1], text[|text| - 1];
      assert text == most + [last];
      HangGrows(most);
      HangJoined(most, [last], INDENT);
      if '\n' in most {
        FeedsKept(most);
      } else {
        HangNothing(most, INDENT);
      }
      LastHung(last);
    }
  }

  lemma LastHung(last: char)
    ensures last != '\n' ==> Hang([last], INDENT) == [last]
  {
    assert [last][1..] == "";
  }

  // ----- growing -----

  /** Tokens of one line stay; others do not become shorter, nor do they become one line. */
  ghost predicate Grown(ts: seq<Token>, us: seq<Token>) {
    && Size(us) >= Size(ts)
    && (AllOneLine(ts) ==> us == ts)
    && (AllOneLine(us) ==> AllOneLine(ts))
    && (NamesKept(ts) ==> NamesKept(us))
  }

  /** Others become longer. */
  ghost predicate Lengthened(ts: seq<Token>, us: seq<Token>) {
    Grown(ts, us) && (!AllOneLine(ts) ==> Size(us) > Size(ts))
  }

  lemma GrownSame(ts: seq<Token>)
    ensures Grown(ts, ts)
  {
  }

  lemma OneLineJoined(a: seq<Token>, b: seq<Token>)
    ensures AllOneLine(a + b) <==> AllOneLine(a) && AllOneLine(b)
  {
    hide OneLine;
    assert forall t :: t in a + b <==> t in a || t in b;
  }

  lemma GrownJoined(a: seq<Token>, x: seq<Token>, b: seq<Token>, y: seq<Token>)
    requires Grown(a, x) && Grown(b, y)
    ensures Grown(a + b, x + y) && (Lengthened(a, x) && Lengthened(b, y) ==> Lengthened(a + b, x + y))
  {
    hide AllOneLine, NamesKept, Size;
    SizeJoined(a, b);
    SizeJoined(x, y);
    OneLineJoined(a, b);
    OneLineJoined(x, y);
    HungJoined(a, b);
    HungJoined(x, y);
  }

  lemma {:induction false} HangLengthens(ts: seq<Token>)
    ensures Lengthened(ts, HangTokens(ts))
    decreases ts
  {
    if ts == [] {
    } else {
      var t, rest := ts[0], ts[1..];
      HangLengthens(rest);
      TokenLengthens(t);
      assert ts == [t] + rest && HangTokens(ts) == [HangToken(t)] + HangTokens(rest);
      GrownJoined([t], [HangToken(t)], rest, HangTokens(rest));
    }
  }

  lemma TokenLengthens(t: Token)
    ensures Lengthened([t], [HangToken(t)])
  {
    hide HangText;
    assert Size([t]) == |TokenText(t)| && Size([HangToken(t)]) == |TokenText(HangToken(t))|;
    assert [t][0] in [t] && [HangToken(t)][0] in [HangToken(t)];
    if t.Lit? {
      TextGrows(t.text);
    }
  }

  /** What is indented once more. */
  lemma GrownThenHung(ts: seq<Token>, us: seq<Token>)
    requires Grown(ts, us)
    ensures Lengthened(ts, HangTokens(us))
  {
    hide AllOneLine, NamesKept, Size, HangTokens;
    HangLengthens(us);
  }

  lemma BracketsLengthened(open: char, ts: seq<Token>, us: seq<Token>, close: char)
    requires Lengthened(ts, us)
    ensures Lengthened([Punct(open)] + ts + [Punct(close)], [Punct(open)] + us + [Punct(close)])
  {
    hide Grown;
    SignLengthened(open);
    SignLengthened(close);
    GrownIfLengthened([Punct(open)], [Punct(open)]);
    GrownIfLengthened([Punct(close)], [Punct(close)]);
    GrownIfLengthened(ts, us);
    GrownJoined([Punct(open)], [Punct(open)], ts, us);
    GrownJoined([Punct(open)] + ts, [Punct(open)] + us, [Punct(close)], [Punct(close)]);
  }

  lemma GrownIfLengthened(ts: seq<Token>, us: seq<Token>)
    requires Lengthened(ts, us)
    ensures Grown(ts, us)
  {
  }

  lemma SignLengthened(c: char)
    ensures Lengthened([Punct(c)], [Punct(c)])
  {
  }

  // ----- documents -----

  lemma {:induction false} SelectionGrows(s: Selection)
    requires NamesKept(PrintSelection(s))
    ensures Grown(PrintSelection(s), PrintSelection(LaidSelection(s)))
    decreases s, 1
  {
    hide Grown, PrintArguments, PrintDirectives, PrintSelectionSet, PrintOptionalName, NamesKept, LaidSelections;
    match s
    case Field(f) =>
      var a := [Name(f.alias)] + (if f.name != f.alias then [Punct(':'), Name(f.name)] else []) +
               PrintArguments(f.args) + PrintDirectives(f.directives);
      HungJoined(a, PrintSelectionSet(f.selections));
      SetGrows(f.selections);
      GrownSame(a);
      GrownJoined(a, a, PrintSelectionSet(f.selections), PrintSelectionSet(LaidSelections(f.selections)));
    case Spread(_, _) => GrownSame(PrintSelection(s));
    case Inline(on, directives, sels) =>
      var a := [Punct('.'), Punct('.'), Punct('.'), Name("on")] + PrintOptionalName(on) + PrintDirectives(directives);
      HungJoined(a, PrintSelectionSet(sels));
      SetGrows(sels);
      GrownSame(a);
      GrownJoined(a, a, PrintSelectionSet(sels), PrintSelectionSet(LaidSelections(sels)));
  }

  lemma SetGrows(sels: seq<Selection>)
    requires NamesKept(PrintSelectionSet(sels))
    ensures Lengthened(PrintSelectionSet(sels), PrintSelectionSet(LaidSelections(sels)))
    ensures Grown(PrintSelectionSet(sels), PrintSelectionSet(LaidSelections(sels)))
    decreases sels, 2
  {
    hide PrintSelections, NamesKept, HangTokens;
    if sels != [] {
      HungBrackets('{', PrintSelections(sels), '}');
      SelectionsGrow(sels);
      BracketsLengthened('{', PrintSelections(sels), PrintSelections(LaidSelections(sels)), '}');
    }
  }

  lemma {:induction false} SelectionsGrow(sels: seq<Selection>)
    requires NamesKept(PrintSelections(sels))
    ensures Lengthened(PrintSelections(sels), PrintSelections(LaidSelections(sels)))
    decreases sels, 1
  {
    hide PrintSelection, HangTokens, HangSelection, LaidSelection, AllOneLine, Size;
    if sels == [] {
      NothingLengthened();
    } else {
      var first := LaidSelection(sels[0]);
      HungJoined(PrintSelection(sels[0]), PrintSelections(sels[1..]));
      SelectionGrows(sels[0]);
      HungSelection(first);
      GrownThenHung(PrintSelection(sels[0]), PrintSelection(first));
      SelectionsGrow(sels[1..]);
      var hung, rest := HangSelection(first), LaidSelections(sels[1..]);
      GrownJoined(PrintSelection(sels[0]), PrintSelection(hung), PrintSelections(sels[1..]), PrintSelections(rest));
      assert LaidSelections(sels) == [hung] + rest && LaidSelections(sels)[1..] == rest;
    }
  }

  lemma NothingLengthened()
    ensures Lengthened([], [])
  {
  }

  /** On one line there is no line feed. */
  lemma {:induction false} NoFeedInTokens(parts: seq<Part>)
    requires '\n' !in Text(parts)
    ensures AllOneLine(TokensIn(parts))
  {
    if parts != [] {
      assert forall c :: c in PartText(parts[0]) || c in Text(parts[1..]) ==> c in Text(parts);
      NoFeedInTokens(parts[1..]);
    }
  }

  lemma {:induction false} NoFeedInVars(vars: seq<InputValue>)
    requires !SomeLine(VarParts(vars))
    ensures AllOneLine(PrintVars(vars))
  {
    hide OneLine, VariableParts, PrintVariable, Text;
    if vars != [] {
      var items := VarParts(vars);
      assert '\n' !in Text(items[0]);
      NoFeedInTokens(VariableParts(vars[0]));
      PrintedTokens.VariableSpells(vars[0]);
      PrintedTokens.TokensSpelled(VariableParts(vars[0]), PrintVariable(vars[0]));
      forall i | 0 <= i < |VarParts(vars[1..])|
        ensures '\n' !in Text(VarParts(vars[1..])[i])
      {
        assert items[i + 1] == VarParts(vars[1..])[i];
      }
      NoFeedInVars(vars[1..]);
      OneLineJoined(PrintVariable(vars[0]), PrintVars(vars[1..]));
    }
  }

  lemma VarsGrow(vars: seq<InputValue>)
    requires NamesKept(PrintVariables(vars))
    ensures Lengthened(PrintVariables(vars), PrintVariables(LaidVars(vars)))
  {
    hide VarParts, PrintVars, NamesKept, HangTokens, SomeLine, AllOneLine, Size;
    if vars == [] {
      NothingLengthened();
      assert PrintVariables(LaidVars(vars)) == [];
    } else {
      HungBrackets('(', PrintVars(vars), ')');
      if SomeLine(VarParts(vars)) {
        HungVars(vars);
        HangLengthens(PrintVars(vars));
        BracketsLengthened('(', PrintVars(vars), PrintVars(HangVars(vars)), ')');
      } else {
        NoFeedInVars(vars);
        GrownSame(PrintVars(vars));
        BracketsLengthened('(', PrintVars(vars), PrintVars(vars), ')');
      }
    }
  }

  /** The same if `flat`, and longer otherwise. */
  ghost predicate SameIf(flat: bool, ts: seq<Token>, us: seq<Token>) {
    (flat ==> us == ts) && (!flat ==> Size(us) > Size(ts))
  }

  lemma SameIfJoined(flat: bool, a: seq<Token>, x: seq<Token>, also: bool, b: seq<Token>, y: seq<Token>)
    requires SameIf(flat, a, x) && SameIf(also, b, y)
    ensures SameIf(flat && also, a + b, x + y)
  {
    hide Size;
    SizeJoined(a, b);
    SizeJoined(x, y);
  }

  lemma SameIfLengthened(ts: seq<Token>, us: seq<Token>)
    requires Lengthened(ts, us)
    ensures SameIf(AllOneLine(ts), ts, us)
  {
  }

  lemma OperationSame(op: Operation)
    requires NamesKept(PrintOperation(op))
    ensures SameIf(OperationFlat(op), PrintOperation(op), PrintOperation(LaidOperation(op)))
  {
    hide SameIf, NamesKept, PrintDirectives, PrintVariables, PrintSelectionSet, PrintOptionalName, LaidVars,
         LaidSelections;
    hide HangTokens, Lengthened, Grown, AllOneLine;
    var a := [Name(OperationWord(op.op))] + PrintOptionalName(op.name) + PrintDirectives(op.directives);
    var b, c := PrintVariables(op.vars), PrintSelectionSet(op.selections);
    var y, z := PrintVariables(LaidVars(op.vars)), PrintSelectionSet(LaidSelections(op.selections));
    HungThree(a, b, c);
    VarsGrow(op.vars);
    SetGrows(op.selections);
    SameIfLengthened(b, y);
    SameIfLengthened(c, z);
    Same(a);
    SameIfJoined(true, a, a, AllOneLine(b), b, y);
    SameIfJoined(AllOneLine(b), a + b, a + y, AllOneLine(c), c, z);
  }

  lemma Same(ts: seq<Token>)
    ensures SameIf(true, ts, ts)
  {
  }

  lemma FragmentSame(f: Fragment)
    requires NamesKept(PrintFragment(f))
    ensures SameIf(AllOneLine(PrintSelectionSet(f.selections)), PrintFragment(f), PrintFragment(LaidFragment(f)))
  {
    hide SameIf, NamesKept, PrintDirectives, PrintSelectionSet, PrintOptionalName, LaidSelections;
    hide HangTokens, Lengthened, Grown, AllOneLine;
    var a := [Name("fragment")] + PrintOptionalName(f.name) + [Name("on")] + PrintOptionalName(f.on) +
             PrintDirectives(f.directives);
    var b, y := PrintSelectionSet(f.selections), PrintSelectionSet(LaidSelections(f.selections));
    HungJoined(a, b);
    SetGrows(f.selections);
    SameIfLengthened(b, y);
    Same(a);
    SameIfJoined(true, a, a, AllOneLine(b), b, y);
  }

  lemma {:induction false} OperationsSame(ops: seq<Operation>)
    requires NamesKept(PrintOperations(ops))
    ensures SameIf(forall op :: op in ops ==> OperationFlat(op), PrintOperations(ops),
                   PrintOperations(LaidOperations(ops)))
  {
    hide SameIf, NamesKept, PrintOperation, OperationFlat, LaidOperation, HangTokens;
    if ops == [] {
      Same([]);
    } else {
      var one, rest := PrintOperation(ops[0]), PrintOperations(ops[1..]);
      HungJoined(one, rest);
      OperationSame(ops[0]);
      OperationsSame(ops[1..]);
      var laid := LaidOperations(ops);
      assert laid[0] == LaidOperation(ops[0]) && laid[1..] == LaidOperations(ops[1..]);
      SameIfJoined(OperationFlat(ops[0]), one, PrintOperation(laid[0]),
                   forall op :: op in ops[1..] ==> OperationFlat(op),
                   rest, PrintOperations(laid[1..]));
      assert ops == [ops[0]] + ops[1..];
    }
  }

  lemma {:induction false} FragmentsSame(fs: seq<Fragment>)
    requires NamesKept(PrintFragments(fs))
    ensures SameIf(forall f :: f in fs ==> AllOneLine(PrintSelectionSet(f.selections)),
                   PrintFragments(fs), PrintFragments(LaidFragments(fs)))
  {
    hide SameIf, NamesKept, PrintFragment, AllOneLine, PrintSelectionSet, LaidFragment, HangTokens;
    if fs == [] {
      Same([]);
    } else {
      var one, rest := PrintFragment(fs[0]), PrintFragments(fs[1..]);
      HungJoined(one, rest);
      FragmentSame(fs[0]);
      FragmentsSame(fs[1..]);
      var laid := LaidFragments(fs);
      assert laid[0] == LaidFragment(fs[0]) && laid[1..] == LaidFragments(fs[1..]);
      SameIfJoined(AllOneLine(PrintSelectionSet(fs[0].selections)), one, PrintFragment(laid[0]),
                   forall f :: f in fs[1..] ==>
                     AllOneLine(PrintSelectionSet(f.selections)), rest, PrintFragments(laid[1..]));
      assert fs == [fs[0]] + fs[1..];
    }
  }

  /** Laid out, a document has the same tokens exactly if it is flat. */
  lemma LaidIffFlat(doc: Document)
    requires NamesKept(Print(doc))
    ensures Print(Laid(doc)) == Print(doc) <==> Flat(doc)
  {
    hide NamesKept, PrintOperations, PrintFragments, LaidOperations, LaidFragments, OperationFlat, AllOneLine,
         HangTokens, Size;
    HungJoined(PrintOperations(doc.operations), PrintFragments(doc.fragments));
    OperationsSame(doc.operations);
    FragmentsSame(doc.fragments);
    SameIfJoined(forall op :: op in doc.operations ==> OperationFlat(op),
                 PrintOperations(doc.operations), PrintOperations(LaidOperations(doc.operations)),
                 forall f :: f in doc.fragments ==> AllOneLine(PrintSelectionSet(f.selections)),
                 PrintFragments(doc.fragments), PrintFragments(LaidFragments(doc.fragments)));
  }
}
