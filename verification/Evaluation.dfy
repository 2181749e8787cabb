/**
 What a literal of a query document evaluates to.  Reading the text of a number,
 a string or a name is a parameter: it depends on nothing but kind and text.
 */
module Evaluation {
  import opened Query

  datatype Datum = Null | Scalar(text: string) | List(items: seq<Datum>) | Object(entries: map<string, Datum>)

  type Reader = (LiteralKind, string) -> Datum

  function Evaluate(read: Reader, vars: map<string, Datum>, lit: Literal): Datum {
    match lit
    case BasicLit(kind, text) => read(kind, text)
    case ListLit(entries) => List(EvaluateAll(read, vars, entries))
    case ObjectLit(fields) => Object(EvaluateFields(read, vars, fields))
    case NullLit => Null
    case Variable(name) => if name in vars then vars[name] else Null
  }

  function EvaluateAll(read: Reader, vars: map<string, Datum>, lits: seq<Literal>): seq<Datum> {
    if lits == [] then []
    else [Evaluate(read, vars, lits[0])] + EvaluateAll(read, vars, lits[1..])
  }

  /** A later field of the same name replaces an earlier one. */
  function EvaluateFields(read: Reader, vars: map<string, Datum>, fields: seq<ObjectField>): map<string, Datum> {
    if fields == [] then map[]
    else
      var last := fields[|fields| - 1];
      EvaluateFields(read, vars, fields[..|fields| - 1])[last.name := Evaluate(read, vars, last.value)]
  }

  /** Two arguments written the same evaluate alike whatever the variables are, when they use none. */
  predicate VariableFree(lit: Literal) {
    match lit
    case BasicLit(_, _) => true
    case ListLit(entries) => forall e :: e in entries ==> VariableFree(e)
    case ObjectLit(fields) => forall f :: f in fields ==> VariableFree(f.value)
    case NullLit => true
    case Variable(_) => false
  }

  lemma {:induction false} VariablesDoNotMatter(read: Reader, vars: map<string, Datum>, vars': map<string, Datum>,
                                                lit: Literal)
    requires VariableFree(lit)
    ensures Evaluate(read, vars, lit) == Evaluate(read, vars', lit)
  {
    match lit
    case ListLit(entries) => VariablesDoNotMatterInAll(read, vars, vars', entries);
    case ObjectLit(fields) => VariablesDoNotMatterInFields(read, vars, vars', fields);
    case _ =>
  }

  lemma {:induction false} VariablesDoNotMatterInAll(read: Reader, vars: map<string, Datum>, vars': map<string, Datum>,
                                                     lits: seq<Literal>)
    requires forall e :: e in lits ==> VariableFree(e)
    ensures EvaluateAll(read, vars, lits) == EvaluateAll(read, vars', lits)
  {
    if lits != [] {
      VariablesDoNotMatter(read, vars, vars', lits[0]);
      VariablesDoNotMatterInAll(read, vars, vars', lits[1..]);
    }
  }

  lemma {:induction false} VariablesDoNotMatterInFields(
      read: Reader, vars: map<string, Datum>, vars': map<string, Datum>, fields: seq<ObjectField>)
    requires forall f :: f in fields ==> VariableFree(f.value)
    ensures EvaluateFields(read, vars, fields) == EvaluateFields(read, vars', fields)
  {
    if fields != [] {
      VariablesDoNotMatter(read, vars, vars', fields[|fields| - 1].value);
      VariablesDoNotMatterInFields(read, vars, vars', fields[..|fields| - 1]);
    }
  }
}
