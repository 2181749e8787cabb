/**
 What a literal evaluates to while its variables are left open: two literals
 evaluate alike under all variables exactly if this is the same for both.
 */
module Symbols {
  import opened Query
  import opened Evaluation

  datatype Symbol =
    | Nothing
    | Text(text: string)
    | Items(items: seq<Symbol>)
    | Entries(entries: map<string, Symbol>)
    | Open(name: string)

  function Fixed(d: Datum): Symbol {
    match d
    case Null => Nothing
    case Scalar(text) => Text(text)
    case List(items) => Items(seq(|items|, i requires 0 <= i < |items| => Fixed(items[i])))
    case Object(entries) => Entries(map k | k in entries :: Fixed(entries[k]))
  }

  function Symbolic(read: Reader, lit: Literal): Symbol {
    match lit
    case BasicLit(kind, text) => Fixed(read(kind, text))
    case ListLit(entries) => Items(SymbolicAll(read, entries))
    case ObjectLit(fields) => Entries(SymbolicFields(read, fields))
    case NullLit => Nothing
    case Variable(name) => Open(name)
  }

  function SymbolicAll(read: Reader, lits: seq<Literal>): seq<Symbol> {
    if lits == [] then [] else [Symbolic(read, lits[0])] + SymbolicAll(read, lits[1..])
  }

  function SymbolicFields(read: Reader, fields: seq<ObjectField>): map<string, Symbol> {
    if fields == [] then map[]
    else
      var last := fields[|fields| - 1];
      SymbolicFields(read, fields[..|fields| - 1])[last.name := Symbolic(read, last.value)]
  }

  /** The value once the variables have theirs. */
  function Closed(vars: map<string, Datum>, s: Symbol): Datum {
    match s
    case Nothing => Null
    case Text(text) => Scalar(text)
    case Items(items) => List(seq(|items|, i requires 0 <= i < |items| => Closed(vars, items[i])))
    case Entries(entries) => Object(map k | k in entries :: Closed(vars, entries[k]))
    case Open(name) => if name in vars then vars[name] else Null
  }

  lemma {:induction false} FixedIsClosed(vars: map<string, Datum>, d: Datum)
    ensures Closed(vars, Fixed(d)) == d
  {
    match d
    case List(items) =>
      forall i | 0 <= i < |items|
        ensures Closed(vars, Fixed(items[i])) == items[i]
      {
        FixedIsClosed(vars, items[i]);
      }
    case Object(entries) =>
      forall k | k in entries
        ensures Closed(vars, Fixed(entries[k])) == entries[k]
      {
        FixedIsClosed(vars, entries[k]);
      }
    case _ =>
  }

  lemma NoEntries(vars: map<string, Datum>)
    ensures Closed(vars, Entries(map[])) == Object(map[])
  {
  }

  lemma OneMoreEntry(vars: map<string, Datum>, entries: map<string, Symbol>, name: string, s: Symbol)
    ensures Closed(vars, Entries(entries[name := s])) ==
            Object(Closed(vars, Entries(entries)).entries[name := Closed(vars, s)])
  {
    var longer := entries[name := s];
    assert forall k | k in longer :: longer[k] == if k == name then s else entries[k];
  }

  lemma {:induction false} ClosedIsValue(read: Reader, vars: map<string, Datum>, lit: Literal)
    ensures Closed(vars, Symbolic(read, lit)) == Evaluate(read, vars, lit)
    decreases lit, 1
  {
    match lit
    case BasicLit(kind, text) => FixedIsClosed(vars, read(kind, text));
    case ListLit(entries) => ClosedAreValues(read, vars, entries);
    case ObjectLit(fields) => ClosedFieldsAreValues(read, vars, fields);
    case _ =>
  }

  lemma {:induction false} ClosedAreValues(read: Reader, vars: map<string, Datum>, lits: seq<Literal>)
    ensures Closed(vars, Items(SymbolicAll(read, lits))) == List(EvaluateAll(read, vars, lits))
    decreases lits, 0
  {
    if lits != [] {
      ClosedIsValue(read, vars, lits[0]);
      ClosedAreValues(read, vars, lits[1..]);
    }
  }

  lemma {:induction false} ClosedFieldsAreValues(read: Reader, vars: map<string, Datum>, fields: seq<ObjectField>)
    ensures Closed(vars, Entries(SymbolicFields(read, fields))) == Object(EvaluateFields(read, vars, fields))
    decreases fields, 0
  {
    if fields != [] {
      var last, most := fields[|fields| - 1], fields[..|fields| - 1];
      ClosedIsValue(read, vars, last.value);
      ClosedFieldsAreValues(read, vars, most);
      OneMoreEntry(vars, SymbolicFields(read, most), last.name, Symbolic(read, last.value));
    }
  }

  // ----- values that tell variables apart -----

  function Names(s: Symbol): set<string> {
    match s
    case Items(items) => set i, n | 0 <= i < |items| && n in Names(items[i]) :: n
    case Entries(entries) => set k, n | k in entries && n in Names(entries[k]) :: n
    case Open(name) => {name}
    case _ => {}
  }

  function Texts(s: Symbol): set<string> {
    match s
    case Text(text) => {text}
    case Items(items) => set i, t | 0 <= i < |items| && t in Texts(items[i]) :: t
    case Entries(entries) => set k, t | k in entries && t in Texts(entries[k]) :: t
    case _ => {}
  }

  function Pad(n: nat): (s: string)
    ensures |s| == n
  {
    seq(n, _ => 'x')
  }

  /** Each variable has a text of its own, too long to be any other. */
  function Marked(names: set<string>, n: nat): map<string, Datum> {
    map name | name in names :: Scalar(Pad(n) + name)
  }

  lemma {:induction false} LongerThanAll(texts: set<string>) returns (n: nat)
    ensures forall t :: t in texts ==> |t| < n
    decreases |texts|
  {
    n := 0;
    if texts != {} {
      var t :| t in texts;
      n := LongerThanAll(texts - {t});
      n := if |t| < n then n else |t| + 1;
    }
  }

  lemma {:induction false} MarkedTellsApart(names: set<string>, n: nat, s: Symbol, t: Symbol)
    requires Names(s) <= names && Names(t) <= names
    requires (forall x :: x in Texts(s) ==> |x| < n) && forall x :: x in Texts(t) ==> |x| < n
    requires Closed(Marked(names, n), s) == Closed(Marked(names, n), t)
    ensures s == t
  {
    var vars := Marked(names, n);
    if s.Open? {
      assert s.name in names;
    }
    if t.Open? {
      assert t.name in names;
    }
    if s.Open? && t.Open? {
      assert (Pad(n) + s.name)[n..] == s.name && (Pad(n) + t.name)[n..] == t.name;
    } else if s.Items? && t.Items? {
      SameItems(vars, s, t);
      forall i | 0 <= i < |s.items|
        ensures s.items[i] == t.items[i]
      {
        MarkedTellsApart(names, n, s.items[i], t.items[i]);
      }
    } else if s.Entries? && t.Entries? {
      SameEntries(vars, s, t);
      forall k | k in s.entries
        ensures s.entries[k] == t.entries[k]
      {
        MarkedTellsApart(names, n, s.entries[k], t.entries[k]);
      }
    }
  }

  lemma SameItems(vars: map<string, Datum>, s: Symbol, t: Symbol)
    requires s.Items? && t.Items? && Closed(vars, s) == Closed(vars, t)
    ensures |s.items| == |t.items|
    ensures forall i | 0 <= i < |s.items| :: Closed(vars, s.items[i]) == Closed(vars, t.items[i])
  {
    var a, b := Closed(vars, s).items, Closed(vars, t).items;
    assert |a| == |s.items| && |b| == |t.items|;
    assert forall i | 0 <= i < |s.items| :: a[i] == Closed(vars, s.items[i]);
    assert forall i | 0 <= i < |t.items| :: b[i] == Closed(vars, t.items[i]);
  }

  lemma SameEntries(vars: map<string, Datum>, s: Symbol, t: Symbol)
    requires s.Entries? && t.Entries? && Closed(vars, s) == Closed(vars, t)
    ensures s.entries.Keys == t.entries.Keys
    ensures forall k | k in s.entries :: Closed(vars, s.entries[k]) == Closed(vars, t.entries[k])
  {
    var a, b := Closed(vars, s).entries, Closed(vars, t).entries;
    assert a.Keys == s.entries.Keys && b.Keys == t.entries.Keys;
    assert forall k | k in s.entries :: a[k] == Closed(vars, s.entries[k]);
    assert forall k | k in t.entries :: b[k] == Closed(vars, t.entries[k]);
  }

  /** The same value under all variables means the same symbol. */
  lemma SameSymbol(s: Symbol, t: Symbol)
    requires forall vars :: Closed(vars, s) == Closed(vars, t)
    ensures s == t
  {
    var n := LongerThanAll(Texts(s) + Texts(t));
    MarkedTellsApart(Names(s) + Names(t), n, s, t);
  }
}
