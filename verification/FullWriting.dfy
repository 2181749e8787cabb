/**
 The documents the parser can make, and one way to write each of them: nothing
 that may be left out is left out.
 */
module FullWriting {
  import opened Wrappers
  import opened Query
  import opened Ordering
  import opened Syntax
  import opened Spelling
  import opened Accepted
  import R = RoundTrip

  // ----- what can be made -----

  /** No name is `null`, the fields of objects are in order, and default values have no variables. */
  ghost predicate LiteralMade(lit: Literal, constOnly: bool) {
    match lit
    case BasicLit(kind, text) => !(kind == IdentLit && text == "null")
    case ListLit(entries) => forall e :: e in entries ==> LiteralMade(e, constOnly)
    case ObjectLit(fields) => R.InOrder(fields) && forall f :: f in fields ==> LiteralMade(f.value, constOnly)
    case NullLit => true
    case Variable(_) => !constOnly
  }

  ghost predicate ArgsMade(args: seq<Argument>) {
    forall a :: a in args ==> LiteralMade(a.value, false)
  }

  ghost predicate DirectivesMade(ds: seq<Directive>) {
    forall d :: d in ds ==> ArgsMade(d.args)
  }

  ghost predicate VariableMade(v: InputValue) {
    && v.name != "" && v.name[0] == '$' && TypeFits(v.typ)
    && (v.default.Some? ==> LiteralMade(v.default.value, true)) && DirectivesMade(v.directives)
  }

  ghost predicate SelectionMade(s: Selection)
    decreases s, 0
  {
    match s
    case Field(f) =>
      ArgsMade(f.args) && DirectivesMade(f.directives) && f.schema == None && SelectionsMade(f.selections)
    case Inline(_, directives, sels) => DirectivesMade(directives) && SelectionsMade(sels)
    case Spread(name, directives) => name != "on" && DirectivesMade(directives)
  }

  ghost predicate SelectionsMade(sels: seq<Selection>)
    decreases sels, 1
  {
    forall s :: s in sels ==> SelectionMade(s)
  }

  ghost predicate OperationMade(op: Operation) {
    DirectivesMade(op.directives) && (forall v :: v in op.vars ==> VariableMade(v)) && SelectionsMade(op.selections)
  }

  ghost predicate FragmentMade(f: Fragment) {
    DirectivesMade(f.directives) && SelectionsMade(f.selections)
  }

  ghost predicate DocumentMade(doc: Document) {
    (forall op :: op in doc.operations ==> OperationMade(op)) && (forall f :: f in doc.fragments ==> FragmentMade(f))
  }

  // ----- written in full -----

  function FullLiteral(lit: Literal): LiteralForm
    decreases lit, 0
  {
    match lit
    case BasicLit(kind, text) =>
      if text != "" && text[0] == '-' then Negated(kind, text[1..]) else Word(kind, text)
    case ListLit(entries) => Bracketed(FullEntries(entries))
    case ObjectLit(fields) => Braced(FullFields(fields))
    case NullLit => NullWord
    case Variable(name) => DollarName(name)
  }

  function FullEntries(entries: seq<Literal>): seq<LiteralForm>
    decreases entries, 1
  {
    if entries == [] then [] else [FullLiteral(entries[0])] + FullEntries(entries[1..])
  }

  function FullFields(fields: seq<ObjectField>): seq<NamedForm>
    decreases fields, 1
  {
    if fields == [] then [] else [NamedForm(fields[0].name, FullLiteral(fields[0].value))] + FullFields(fields[1..])
  }

  function FullArgs(args: seq<Argument>): seq<NamedForm> {
    if args == [] then [] else [NamedForm(args[0].name, FullLiteral(args[0].value))] + FullArgs(args[1..])
  }

  /** Each with parentheses. */
  function FullDirectives(ds: seq<Directive>): seq<DirectiveForm> {
    if ds == [] then [] else [DirectiveForm(ds[0].name, Some(FullArgs(ds[0].args)))] + FullDirectives(ds[1..])
  }

  function FullInputs(vs: seq<InputValue>): seq<InputForm> {
    if vs == [] then []
    else
      var v := vs[0];
      var default := if v.default.Some? then Some(FullLiteral(v.default.value)) else None;
      [InputForm(None, if v.name != "" then v.name[1..] else "", v.typ, default, FullDirectives(v.directives))] +
      FullInputs(vs[1..])
  }

  function Unless(name: string): Option<string> {
    if name == "" then None else Some(name)
  }

  function FullSelection(s: Selection): SelectionForm
    decreases s, 0
  {
    match s
    case Field(f) =>
      FieldForm(f.alias, Some(f.name), Some(FullArgs(f.args)), FullDirectives(f.directives), true,
                FullSelections(f.selections))
    case Inline(on, directives, sels) => InlineForm(Unless(on), FullDirectives(directives), FullSelections(sels))
    case Spread(name, directives) => SpreadForm(name, FullDirectives(directives))
  }

  function FullSelections(sels: seq<Selection>): seq<SelectionForm>
    decreases sels, 1
  {
    if sels == [] then [] else [FullSelection(sels[0])] + FullSelections(sels[1..])
  }

  function FullOperations(ops: seq<Operation>): seq<DefinitionForm> {
    if ops == [] then []
    else
      var op := ops[0];
      [OperationForm(op.op, Unless(op.name), FullDirectives(op.directives), Some(FullInputs(op.vars)),
                     FullSelections(op.selections))] + FullOperations(ops[1..])
  }

  function FullFragments(fs: seq<Fragment>): seq<DefinitionForm> {
    if fs == [] then []
    else
      [FragmentForm(fs[0].name, fs[0].on, FullDirectives(fs[0].directives), FullSelections(fs[0].selections))] +
      FullFragments(fs[1..])
  }

  function FullDocument(doc: Document): seq<DefinitionForm> {
    FullOperations(doc.operations) + FullFragments(doc.fragments)
  }

  // ----- which means the document -----

  lemma {:induction false} FullLiteralMeans(lit: Literal, constOnly: bool)
    requires LiteralMade(lit, constOnly)
    ensures LiteralFits(FullLiteral(lit), constOnly) && MeantLiteral(FullLiteral(lit)) == lit
    decreases lit, 0
  {
    hide SortFields, FullEntries, FullFields, MeantEntries, MeantFields;
    match lit
    case ListLit(entries) => FullEntriesMean(entries, constOnly);
    case ObjectLit(fields) =>
      FullFieldsMean(fields, constOnly);
      R.SortOfSorted(fields);
    case _ =>
  }

  lemma {:induction false} FullEntriesMean(entries: seq<Literal>, constOnly: bool)
    requires forall e :: e in entries ==> LiteralMade(e, constOnly)
    ensures (forall f :: f in FullEntries(entries) ==> LiteralFits(f, constOnly))
    ensures MeantEntries(FullEntries(entries)) == entries
    decreases entries, 1
  {
    hide LiteralMade, LiteralFits, FullLiteral, MeantLiteral;
    if entries != [] {
      FullLiteralMeans(entries[0], constOnly);
      FullEntriesMean(entries[1..], constOnly);
    }
  }

  lemma {:induction false} FullFieldsMean(fields: seq<ObjectField>, constOnly: bool)
    requires forall f :: f in fields ==> LiteralMade(f.value, constOnly)
    ensures (forall f :: f in FullFields(fields) ==> LiteralFits(f.value, constOnly))
    ensures MeantFields(FullFields(fields)) == fields
    decreases fields, 1
  {
    hide LiteralMade, LiteralFits, FullLiteral, MeantLiteral;
    if fields != [] {
      FullLiteralMeans(fields[0].value, constOnly);
      FullFieldsMean(fields[1..], constOnly);
    }
  }

  lemma {:induction false} FullArgsMean(args: seq<Argument>)
    requires ArgsMade(args)
    ensures (forall f :: f in FullArgs(args) ==> LiteralFits(f.value, false)) && MeantArgs(FullArgs(args)) == args
  {
    hide LiteralMade, LiteralFits, FullLiteral, MeantLiteral;
    if args != [] {
      FullLiteralMeans(args[0].value, false);
      FullArgsMean(args[1..]);
    }
  }

  lemma {:induction false} FullDirectivesMean(ds: seq<Directive>)
    requires DirectivesMade(ds)
    ensures DirectivesFit(FullDirectives(ds)) && MeantDirectives(FullDirectives(ds)) == ds
    ensures !LeftOpen(FullDirectives(ds))
  {
    hide ArgsMade, LiteralFits, FullArgs, MeantArgs;
    if ds != [] {
      var d := DirectiveForm(ds[0].name, Some(FullArgs(ds[0].args)));
      FullArgsMean(ds[0].args);
      FullDirectivesMean(ds[1..]);
      assert FullDirectives(ds)[1..] == FullDirectives(ds[1..]);
      assert ArgumentsFit(d.args) && MeantArguments(d.args) == ds[0].args;
    }
  }

  lemma {:induction false} FullInputsMean(vs: seq<InputValue>)
    requires forall v :: v in vs ==> VariableMade(v)
    ensures (forall v :: v in FullInputs(vs) ==> InputFits(v)) && MeantInputs(FullInputs(vs)) == vs
  {
    hide LiteralMade, LiteralFits, FullLiteral, MeantLiteral, DirectivesMade, DirectivesFit, FullDirectives,
         MeantDirectives, TypeFits;
    if vs != [] {
      assert VariableMade(vs[0]);
      if vs[0].default.Some? {
        FullLiteralMeans(vs[0].default.value, true);
      }
      FullDirectivesMean(vs[0].directives);
      FullInputsMean(vs[1..]);
      assert vs[0].name == "$" + vs[0].name[1..];
    }
  }

  lemma {:induction false} FullSelectionMeans(s: Selection)
    requires SelectionMade(s)
    ensures SelectionFits(FullSelection(s)) && MeantSelection(FullSelection(s)) == s
    decreases s, 0
  {
    hide ArgsMade, LiteralFits, FullArgs, MeantArgs, DirectivesMade, DirectivesFit, FullDirectives, MeantDirectives,
         SelectionsMade, SelectionsFit, FullSelections, MeantSelections;
    match s
    case Field(f) =>
      FullArgsMean(f.args);
      FullDirectivesMean(f.directives);
      FullSelectionsMean(f.selections);
    case Inline(_, directives, sels) =>
      FullDirectivesMean(directives);
      FullSelectionsMean(sels);
    case Spread(_, directives) =>
      FullDirectivesMean(directives);
  }

  lemma {:induction false} FullSelectionsMean(sels: seq<Selection>)
    requires SelectionsMade(sels)
    ensures SelectionsFit(FullSelections(sels)) && MeantSelections(FullSelections(sels)) == sels
    decreases sels, 1
  {
    hide SelectionMade, SelectionFits, FullSelection, MeantSelection;
    if sels != [] {
      FullSelectionMeans(sels[0]);
      FullSelectionsMean(sels[1..]);
    }
  }

  lemma {:induction false} FullOperationsMean(ops: seq<Operation>)
    requires forall op :: op in ops ==> OperationMade(op)
    ensures forall d :: d in FullOperations(ops) ==> DefinitionFits(d)
    ensures MeantDocument(FullOperations(ops)) == Document(ops, [])
  {
    hide DirectivesMade, DirectivesFit, FullDirectives, MeantDirectives, SelectionsMade, SelectionsFit, FullSelections,
         MeantSelections, VariableMade, InputFits, FullInputs, MeantInputs;
    if ops != [] {
      assert OperationMade(ops[0]);
      FullDirectivesMean(ops[0].directives);
      FullInputsMean(ops[0].vars);
      FullSelectionsMean(ops[0].selections);
      FullOperationsMean(ops[1..]);
    }
  }

  lemma {:induction false} FullFragmentsMean(fs: seq<Fragment>)
    requires forall f :: f in fs ==> FragmentMade(f)
    ensures forall d :: d in FullFragments(fs) ==> DefinitionFits(d)
    ensures MeantDocument(FullFragments(fs)) == Document([], fs)
  {
    hide DirectivesMade, DirectivesFit, FullDirectives, MeantDirectives, SelectionsMade, SelectionsFit, FullSelections,
         MeantSelections;
    if fs != [] {
      assert FragmentMade(fs[0]);
      FullDirectivesMean(fs[0].directives);
      FullSelectionsMean(fs[0].selections);
      FullFragmentsMean(fs[1..]);
    }
  }

  lemma {:induction false} MeantTogether(a: seq<DefinitionForm>, b: seq<DefinitionForm>)
    ensures MeantDocument(a + b) == Joined(MeantDocument(a), MeantDocument(b))
  {
    hide MeantDefinition;
    if a == [] {
      assert a + b == b;
    } else {
      assert (a + b)[1..] == a[1..] + b;
      MeantTogether(a[1..], b);
    }
  }

  /** Whatever document the parser can make comes back when it is written in full. */
  lemma FullComesBack(doc: Document)
    requires DocumentMade(doc)
    ensures Parse(WriteDefinitions(FullDocument(doc))) == Some(doc)
  {
    hide OperationMade, FragmentMade, DefinitionFits, MeantDocument, ParseDocument, WriteDefinitions;
    FullOperationsMean(doc.operations);
    FullFragmentsMean(doc.fragments);
    MeantTogether(FullOperations(doc.operations), FullFragments(doc.fragments));
    DefinitionsAreParsed(FullDocument(doc), Document([], []));
    assert Joined(Document(doc.operations, []), Document([], doc.fragments)) == doc;
    assert Joined(Document([], []), doc) == doc;
  }

  // ----- nothing else can be made -----

  lemma {:induction false} MeantLiteralMade(f: LiteralForm, constOnly: bool)
    requires LiteralFits(f, constOnly)
    ensures LiteralMade(MeantLiteral(f), constOnly)
    decreases f, 0
  {
    hide SortFields, MeantEntries, MeantFields;
    match f
    case Negated(kind, text) => assert ("-" + text)[0] == '-';
    case Bracketed(entries) => MeantEntriesMade(entries, constOnly);
    case Braced(fields) =>
      MeantFieldsMade(fields, constOnly);
      R.SortIsSorted(MeantFields(fields));
      SameFields(SortFields(MeantFields(fields)), MeantFields(fields));
    case _ =>
  }

  lemma SameFields(a: seq<ObjectField>, b: seq<ObjectField>)
    requires multiset(a) == multiset(b)
    ensures forall f :: f in a <==> f in b
  {
    assert forall f :: f in a <==> f in multiset(a);
    assert forall f :: f in b <==> f in multiset(b);
  }

  lemma {:induction false} MeantEntriesMade(entries: seq<LiteralForm>, constOnly: bool)
    requires forall e :: e in entries ==> LiteralFits(e, constOnly)
    ensures forall e :: e in MeantEntries(entries) ==> LiteralMade(e, constOnly)
    decreases entries, 1
  {
    hide LiteralMade, LiteralFits, MeantLiteral;
    if entries != [] {
      MeantLiteralMade(entries[0], constOnly);
      MeantEntriesMade(entries[1..], constOnly);
    }
  }

  lemma {:induction false} MeantFieldsMade(fields: seq<NamedForm>, constOnly: bool)
    requires forall f :: f in fields ==> LiteralFits(f.value, constOnly)
    ensures forall f :: f in MeantFields(fields) ==> LiteralMade(f.value, constOnly)
    decreases fields, 1
  {
    hide LiteralMade, LiteralFits, MeantLiteral;
    if fields != [] {
      MeantLiteralMade(fields[0].value, constOnly);
      MeantFieldsMade(fields[1..], constOnly);
    }
  }

  lemma {:induction false} MeantArgsMade(args: seq<NamedForm>)
    requires forall f :: f in args ==> LiteralFits(f.value, false)
    ensures ArgsMade(MeantArgs(args))
  {
    hide LiteralMade, LiteralFits, MeantLiteral;
    if args != [] {
      MeantLiteralMade(args[0].value, false);
      MeantArgsMade(args[1..]);
    }
  }

  lemma MeantArgumentsMade(args: Option<seq<NamedForm>>)
    requires ArgumentsFit(args)
    ensures ArgsMade(MeantArguments(args))
  {
    hide LiteralFits, MeantArgs, LiteralMade;
    if args.Some? {
      MeantArgsMade(args.value);
    }
  }

  lemma {:induction false} MeantDirectivesMade(ds: seq<DirectiveForm>)
    requires DirectivesFit(ds)
    ensures DirectivesMade(MeantDirectives(ds))
  {
    hide ArgsMade, ArgumentsFit, MeantArguments;
    if ds != [] {
      MeantArgumentsMade(ds[0].args);
      MeantDirectivesMade(ds[1..]);
    }
  }

  lemma {:induction false} MeantInputsMade(vs: seq<InputForm>)
    requires forall v :: v in vs ==> InputFits(v)
    ensures forall v :: v in MeantInputs(vs) ==> VariableMade(v)
  {
    hide DirectivesMade, DirectivesFit, MeantDirectives, LiteralFits, LiteralMade, MeantLiteral;
    if vs != [] {
      assert InputFits(vs[0]);
      MeantDirectivesMade(vs[0].directives);
      if vs[0].default.Some? {
        MeantLiteralMade(vs[0].default.value, true);
      }
      MeantInputsMade(vs[1..]);
    }
  }

  lemma {:induction false} MeantSelectionMade(s: SelectionForm)
    requires SelectionFits(s)
    ensures SelectionMade(MeantSelection(s))
    decreases s, 0
  {
    hide ArgsMade, ArgumentsFit, MeantArguments, DirectivesMade, DirectivesFit, MeantDirectives, SelectionsMade,
         SelectionsFit, MeantSelections;
    MeantDirectivesMade(s.directives);
    match s
    case FieldForm(_, _, args, _, _, sels) =>
      MeantArgumentsMade(args);
      MeantSelectionsMade(sels);
    case InlineForm(_, _, sels) => MeantSelectionsMade(sels);
    case SpreadForm(_, _) =>
  }

  lemma {:induction false} MeantSelectionsMade(sels: seq<SelectionForm>)
    requires SelectionsFit(sels)
    ensures SelectionsMade(MeantSelections(sels))
    decreases sels, 1
  {
    hide SelectionFits, SelectionMade, MeantSelection;
    if sels != [] {
      MeantSelectionMade(sels[0]);
      MeantSelectionsMade(sels[1..]);
    }
  }

  lemma {:induction false} MeantDocumentMade(ds: seq<DefinitionForm>)
    requires forall d :: d in ds ==> DefinitionFits(d)
    ensures DocumentMade(MeantDocument(ds))
  {
    hide DirectivesMade, DirectivesFit, MeantDirectives, SelectionsMade, SelectionsFit, MeantSelections, InputFits,
         VariableMade, MeantInputs;
    if ds != [] {
      assert DefinitionFits(ds[0]);
      MeantSelectionsMade(ds[0].sels);
      NothingMeant();
      if !ds[0].Shorthand? {
        MeantDirectivesMade(ds[0].directives);
      }
      if ds[0].OperationForm? && ds[0].vars.Some? {
        MeantInputsMade(ds[0].vars.value);
      }
      MeantDocumentMade(ds[1..]);
    }
  }

  lemma NothingMeant()
    ensures DirectivesMade([])
  {
  }

  /** The parser can make a document exactly if no name in it is `null`, no fragment spread in it is called `on`, its
      types have no double marks, its objects are in order, and its default values have no variables. */
  lemma MadeIff(doc: Document)
    ensures (exists ts :: Parse(ts) == Some(doc)) <==> DocumentMade(doc)
  {
    hide Parse, DocumentMade, Spells;
    if ts :| Parse(ts) == Some(doc) {
      ParseIff(ts, doc);
      SpelledIsMade(ts, doc);
    }
    if DocumentMade(doc) {
      FullComesBack(doc);
    }
  }

  lemma SpelledIsMade(ts: seq<Token>, doc: Document)
    requires Spells(ts, doc)
    ensures DocumentMade(doc)
  {
    hide WriteDefinitions, MeantDocument, DefinitionFits, DocumentMade;
    var ds: seq<DefinitionForm> :|
      (forall d :: d in ds ==> DefinitionFits(d)) && ts == WriteDefinitions(ds) && doc == MeantDocument(ds);
    MeantDocumentMade(ds);
  }
}
