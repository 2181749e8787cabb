/**
 The formatter: loops that append the text of a document to an output, a
 selection set to an output of its own that is then indented.
 */
module Formatter {
  import opened Query
  import opened Printing
  import opened TextScan
  import opened PrintedText
  import opened Indentation

  class Output {
    var out: string

    constructor ()
      ensures out == ""
    {
      out := "";
    }

    method WriteString(s: string)
      modifies this
      ensures out == old(out) + s
    {
      out := out + s;
    }

    method WriteLiteral(lit: Literal)
      modifies this
      ensures out == old(out) + Text(LiteralParts(lit))
      decreases lit, 1
    {
      hide Text, Commas, EntryParts, ObjectFieldParts, BasicParts;
      match lit {
        case BasicLit(kind, text) =>
          BasicText(kind, text);
          WriteString(text);
        case ListLit(entries) =>
          BracketsText('[', Commas(EntryParts(entries)), ']');
          WriteString("[");
          WriteEntries(entries);
          WriteString("]");
        case ObjectLit(fields) =>
          BracketsText('{', Commas(ObjectFieldParts(fields)), '}');
          WriteString("{");
          WriteFields(fields);
          WriteString("}");
        case NullLit =>
          WordText("null");
          WriteString("null");
        case Variable(name) =>
          MarkedText('$', name, []);
          WriteString("$");
          WriteString(name);
      }
    }

    method WriteEntries(entries: seq<Literal>)
      modifies this
      ensures out == old(out) + Text(Commas(EntryParts(entries)))
      decreases entries, 0
    {
      hide Text, EntryParts, LiteralParts, Remaining;
      ghost var items := EntryParts(entries);
      EntryAt(entries);
      AllRemaining(items);
      for i := 0 to |entries|
        invariant old(out) + Text(Commas(items)) == out + Remaining(items, i)
      {
        RemainingStep(items, i);
        if i != 0 {
          WriteString(", ");
        }
        WriteLiteral(entries[i]);
      }
    }

    method WriteFields(fields: seq<ObjectField>)
      modifies this
      ensures out == old(out) + Text(Commas(ObjectFieldParts(fields)))
      decreases fields, 0
    {
      hide Text, ObjectFieldParts, LiteralParts, Remaining;
      ghost var items := ObjectFieldParts(fields);
      FieldAt(fields);
      AllRemaining(items);
      for i := 0 to |fields|
        invariant old(out) + Text(Commas(items)) == out + Remaining(items, i)
      {
        RemainingStep(items, i);
        NamedText(fields[i].name, ':', [Gap(" ")] + LiteralParts(fields[i].value));
        GapText(" ", LiteralParts(fields[i].value));
        assert items[i] == [Word(fields[i].name), Sign(':')] + ([Gap(" ")] + LiteralParts(fields[i].value));
        if i != 0 {
          WriteString(", ");
        }
        WriteString(fields[i].name);
        WriteString(": ");
        WriteLiteral(fields[i].value);
      }
    }

    method WriteArguments(args: seq<Argument>)
      modifies this
      ensures out == old(out) + Text(ArgumentsParts(args))
    {
      hide Text, ArgumentParts, Commas;
      if |args| > 0 {
        BracketsText('(', Commas(ArgumentParts(args)), ')');
        WriteString("(");
        WriteArgs(args);
        WriteString(")");
      } else {
        NoText();
      }
    }

    method WriteArgs(args: seq<Argument>)
      modifies this
      ensures out == old(out) + Text(Commas(ArgumentParts(args)))
    {
      hide Text, ArgumentParts, LiteralParts, Remaining;
      ghost var items := ArgumentParts(args);
      ArgAt(args);
      AllRemaining(items);
      for i := 0 to |args|
        invariant old(out) + Text(Commas(items)) == out + Remaining(items, i)
      {
        RemainingStep(items, i);
        if i != 0 {
          WriteString(", ");
        }
        WriteArgument(args[i]);
      }
    }

    method WriteArgument(arg: Argument)
      modifies this
      ensures out == old(out) + Text([Word(arg.name), Sign(':')] + LiteralParts(arg.value))
    {
      hide Text, LiteralParts;
      NamedText(arg.name, ':', LiteralParts(arg.value));
      WriteString(arg.name);
      WriteString(":");
      WriteLiteral(arg.value);
    }

    method WriteDirectives(ds: seq<Directive>)
      modifies this
      ensures out == old(out) + Text(DirectivesParts(ds))
    {
      hide Text, DirectiveParts, ArgumentsParts, Remaining, Commas;
      ghost var items := DirectiveParts(ds);
      DirectiveAt(ds);
      AllRemaining(items);
      for i := 0 to |ds|
        invariant old(out) + Text(Commas(items)) == out + Remaining(items, i)
      {
        RemainingStep(items, i);
        if i != 0 {
          WriteString(", ");
        }
        WriteDirective(ds[i]);
      }
    }

    method WriteDirective(d: Directive)
      modifies this
      ensures out == old(out) + Text([Sign('@'), Word(d.name)] + ArgumentsParts(d.args))
    {
      hide Text, ArgumentsParts;
      MarkedText('@', d.name, ArgumentsParts(d.args));
      WriteString("@");
      WriteString(d.name);
      WriteArguments(d.args);
    }

    method WriteVariable(v: InputValue)
      modifies this
      ensures out == old(out) + Text(VariableParts(v))
    {
      hide Text, VariableNameParts, TypeParts, LiteralParts;
      hide VariableParts;
      ghost var start := out;
      VariableText(v);
      VariableNameText(v.name);
      TypeIsText(v.typ);
      WriteString(v.name);
      WriteString(":");
      WriteString(TypeText(v.typ));
      ghost var head := v.name + ":" + TypeText(v.typ);
      assert out == start + head;
      if v.default.Some? {
        WriteString("=");
        WriteLiteral(v.default.value);
        assert out == start + (head + ("=" + Text(LiteralParts(v.default.value))));
      } else {
        assert out == start + (head + "");
      }
    }

    method WriteVariables(vars: seq<InputValue>)
      modifies this
      ensures out == old(out) + Text(VariablesParts(vars))
    {
      hide Text, VarParts, VariablesParts, Commas, VarsText, Indented, SomeLine;
      VariablesText(vars);
      if |vars| > 0 {
        WriteString("(");
        var lines := TakesLines(vars);
        if lines {
          var block := VariableBlock(vars);
          WriteString("\n");
          WriteString(block);
        } else {
          WriteOnOneLine(vars);
        }
        WriteString(")");
      }
    }

    method WriteOnOneLine(vars: seq<InputValue>)
      modifies this
      ensures out == old(out) + Text(Commas(VarParts(vars)))
    {
      hide Text, VarParts, VariableParts, Remaining, Commas;
      ghost var items := VarParts(vars);
      VarAt(vars);
      AllRemaining(items);
      for i := 0 to |vars|
        invariant old(out) + Text(Commas(items)) == out + Remaining(items, i)
      {
        RemainingStep(items, i);
        if i != 0 {
          WriteString(", ");
        }
        WriteVariable(vars[i]);
      }
    }

    method WriteSelections(sels: seq<Selection>)
      modifies this
      ensures out == old(out) + Text(SetParts(sels))
      decreases sels, 3
    {
      hide Text, SetParts, SelectionsText, Indented;
      SetText(sels);
      if |sels| > 0 {
        WriteString(" {\n");
        var block := new Output();
        block.WriteLines(sels);
        assert "" + SelectionsText(sels) == SelectionsText(sels);
        var indented := Indent(block.out, INDENT);
        WriteString(indented);
        WriteString("}");
      }
    }

    method WriteLines(sels: seq<Selection>)
      modifies this
      ensures out == old(out) + SelectionsText(sels)
      decreases sels, 2
    {
      hide Text, SelectionParts;
      for i := 0 to |sels|
        invariant out + SelectionsText(sels[i..]) == old(out) + SelectionsText(sels)
      {
        assert sels[i..][1..] == sels[i + 1..];
        WriteSelection(sels[i]);
      }
    }

    /** With a line feed behind it. */
    method WriteSelection(s: Selection)
      modifies this
      ensures out == old(out) + Text(SelectionParts(s)) + "\n"
      decreases s, 1
    {
      hide Text, SelectionParts;
      match s {
        case Field(f) => WriteField(s);
        case Spread(_, _) => WriteSpread(s);
        case Inline(_, _, _) => WriteInline(s);
      }
      WriteString("\n");
    }

    method WriteField(s: Selection)
      requires s.Field?
      modifies this
      ensures out == old(out) + Text(SelectionParts(s))
      decreases s, 0
    {
      hide Text, ArgumentsParts, DirectivesParts, SetParts, SelectionParts;
      SelectionText(s);
      var f := s.field;
      WriteString(f.alias);
      if f.name != f.alias {
        WriteString(":");
        WriteString(f.name);
      }
      WriteArguments(f.args);
      WriteDirectives(f.directives);
      WriteSelections(f.selections);
    }

    method WriteSpread(s: Selection)
      requires s.Spread?
      modifies this
      ensures out == old(out) + Text(SelectionParts(s))
    {
      hide Text, DirectivesParts, SelectionParts;
      SelectionText(s);
      WriteString("...");
      WriteString(s.name);
      WriteDirectives(s.directives);
    }

    method WriteInline(s: Selection)
      requires s.Inline?
      modifies this
      ensures out == old(out) + Text(SelectionParts(s))
      decreases s, 0
    {
      hide Text, DirectivesParts, SetParts, SelectionParts;
      SelectionText(s);
      WriteString("... on ");
      WriteString(s.on);
      WriteDirectives(s.directives);
      WriteSelections(s.selections);
    }

    method WriteName(name: string)
      modifies this
      ensures out == old(out) + if name == "" then "" else " " + name
    {
      if name != "" {
        WriteString(" ");
        WriteString(name);
      }
    }

    method WriteOperation(op: Operation)
      modifies this
      ensures out == old(out) + Text(OperationParts(op))
    {
      hide Text, DirectivesParts, VariablesParts, SetParts, OperationParts;
      OperationText(op);
      WriteString(OperationWord(op.op));
      WriteName(op.name);
      WriteDirectives(op.directives);
      WriteVariables(op.vars);
      WriteSelections(op.selections);
    }

    method WriteFragment(f: Fragment)
      modifies this
      ensures out == old(out) + Text(FragmentParts(f))
    {
      hide Text, DirectivesParts, SetParts, FragmentParts;
      FragmentText(f);
      WriteString("fragment");
      WriteName(f.name);
      WriteString(" on ");
      WriteString(f.on);
      WriteDirectives(f.directives);
      WriteSelections(f.selections);
    }

    method WriteDocument(doc: Document)
      modifies this
      ensures out == old(out) + Text(DocumentParts(doc))
    {
      hide Text, OperationsParts, FragmentsParts;
      TextJoined(OperationsParts(doc.operations), FragmentsParts(doc.fragments));
      WriteOperations(doc.operations);
      WriteFragments(doc.fragments);
    }

    method WriteOperations(ops: seq<Operation>)
      modifies this
      ensures out == old(out) + Text(OperationsParts(ops))
    {
      hide Text, OperationParts;
      for i := 0 to |ops|
        invariant out + Text(OperationsParts(ops[i..])) == old(out) + Text(OperationsParts(ops))
      {
        assert ops[i..][1..] == ops[i + 1..];
        DefinitionText(OperationParts(ops[i]), OperationsParts(ops[i + 1..]));
        WriteOperation(ops[i]);
        WriteString("\n");
      }
      NoText();
    }

    method WriteFragments(fs: seq<Fragment>)
      modifies this
      ensures out == old(out) + Text(FragmentsParts(fs))
    {
      hide Text, FragmentParts;
      for i := 0 to |fs|
        invariant out + Text(FragmentsParts(fs[i..])) == old(out) + Text(FragmentsParts(fs))
      {
        assert fs[i..][1..] == fs[i + 1..];
        DefinitionText(FragmentParts(fs[i]), FragmentsParts(fs[i + 1..]));
        WriteFragment(fs[i]);
        WriteString("\n");
      }
      NoText();
    }
  }

  /** Whether a variable takes up more than one line. */
  method TakesLines(vars: seq<InputValue>) returns (lines: bool)
    ensures lines <==> SomeLine(VarParts(vars))
  {
    hide Text, VarParts, VariableParts;
    VarAt(vars);
    for i := 0 to |vars|
      invariant forall j | 0 <= j < i :: '\n' !in Text(VarParts(vars)[j])
    {
      var b := new Output();
      b.WriteVariable(vars[i]);
      if '\n' in b.out {
        return true;
      }
    }
    lines := false;
  }

  /** The variables on lines of their own, indented. */
  method VariableBlock(vars: seq<InputValue>) returns (text: string)
    ensures text == Indented(VarsText(vars), INDENT)
  {
    hide Text, VariableParts, Indented;
    NoLines();
    assert vars[|vars|..] == [];
    var block := new Output();
    for i := 0 to |vars|
      invariant fresh(block)
      invariant block.out + VarsText(vars[i..]) == VarsText(vars)
    {
      assert vars[i..][1..] == vars[i + 1..];
      block.WriteVariable(vars[i]);
      if i != |vars| - 1 {
        block.WriteString(",");
      }
      block.WriteString("\n");
    }
    assert block.out + "" == block.out;
    text := Indent(block.out, INDENT);
  }
}
