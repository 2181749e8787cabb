/**
 The edit distance behind the validator's "did you mean" suggestions, computed
 in one column that is updated in place.  Texts are sequences of characters of
 one byte each.
 */
module EditDistance {

  function Min(a: nat, b: nat): nat {
    if a < b then a else b
  }

  function Max(a: nat, b: nat): nat {
    if a > b then a else b
  }

  /** The distance by recursion on the last characters. */
  function Distance(s: string, t: string): nat {
    if s == [] then |t|
    else if t == [] then |s|
    else
      var s', t' := s[..|s| - 1], t[..|t| - 1];
      Min(Distance(s, t') + 1,
          Min(Distance(s', t) + 1, Distance(s', t') + (if s[|s| - 1] == t[|t| - 1] then 0 else 1)))
  }

  /** The distance between the two texts' prefixes of lengths i and j. */
  function Cell(s: string, t: string, i: nat, j: nat): nat
    requires i <= |s| && j <= |t|
  {
    Distance(s[..i], t[..j])
  }

  lemma CellStep(s: string, t: string, i: nat, j: nat)
    requires i < |s| && j < |t|
    ensures Cell(s, t, i + 1, j + 1) ==
            Min(Cell(s, t, i + 1, j) + 1,
                Min(Cell(s, t, i, j + 1) + 1, Cell(s, t, i, j) + (if s[i] == t[j] then 0 else 1)))
  {
    var a, b := s[..i + 1], t[..j + 1];
    assert a[..i] == s[..i] && b[..j] == t[..j] && a[i] == s[i] && b[j] == t[j];
  }

  method LevenshteinDistance(s1: string, s2: string) returns (d: nat)
    ensures d == Distance(s1, s2)
  {
    hide Distance;
    EmptyDistances(s1, s2);
    var column := new nat[|s1| + 1](i => 0);
    for y := 0 to |s1|
      invariant forall k :: 0 <= k <= y ==> column[k] == k
    {
      column[y + 1] := y + 1;
    }
    for x := 0 to |s2|
      invariant forall k :: 0 <= k <= |s1| ==> column[k] == Cell(s1, s2, k, x)
    {
      column[0] := x + 1;
      var lastdiag := x;
      for y := 0 to |s1|
        invariant forall k :: 0 <= k <= y ==> column[k] == Cell(s1, s2, k, x + 1)
        invariant forall k :: y < k <= |s1| ==> column[k] == Cell(s1, s2, k, x)
        invariant lastdiag == Cell(s1, s2, y, x)
      {
        var olddiag := column[y + 1];
        if s2[x] != s1[y] {
          lastdiag := lastdiag + 1;
        }
        CellStep(s1, s2, y, x);
        column[y + 1] := Min(column[y + 1] + 1, Min(column[y] + 1, lastdiag));
        lastdiag := olddiag;
      }
    }
    assert s1[..|s1|] == s1 && s2[..|s2|] == s2;
    d := column[|s1|];
  }

  lemma EmptyDistances(s: string, t: string)
    ensures forall k :: 0 <= k <= |s| ==> Cell(s, t, k, 0) == k
    ensures forall k :: 0 <= k <= |t| ==> Cell(s, t, 0, k) == k
  {
  }

  // ----- what the distance means -----

  /** An alignment of two texts, read from left to right. */
  datatype Edit = Keep(c: char) | Replace(c: char, d: char) | Insert(c: char) | Delete(c: char)

  function Source(edits: seq<Edit>): string {
    if edits == [] then []
    else
      var last := edits[|edits| - 1];
      Source(edits[..|edits| - 1]) + (if last.Insert? then [] else [last.c])
  }

  function Result(edits: seq<Edit>): string {
    if edits == [] then []
    else
      var last := edits[|edits| - 1];
      Result(edits[..|edits| - 1]) +
      (match last
       case Keep(c) => [c]
       case Replace(_, d) => [d]
       case Insert(c) => [c]
       case Delete(_) => [])
  }

  function Cost(edits: seq<Edit>): nat {
    if edits == [] then 0
    else Cost(edits[..|edits| - 1]) + (if edits[|edits| - 1].Keep? then 0 else 1)
  }

  lemma OneMoreEdit(edits: seq<Edit>, e: Edit)
    ensures Source(edits + [e]) == if e.Insert? then Source(edits) else Source(edits) + [e.c]
    ensures Result(edits + [e]) ==
            if e.Delete? then Result(edits) else Result(edits) + [if e.Replace? then e.d else e.c]
    ensures Cost(edits + [e]) == Cost(edits) + (if e.Keep? then 0 else 1)
  {
    assert (edits + [e])[..|edits|] == edits;
  }

  /** No edit script is cheaper than the distance. */
  lemma {:induction false} NoScriptIsCheaper(edits: seq<Edit>)
    ensures Distance(Source(edits), Result(edits)) <= Cost(edits)
    decreases |edits|
  {
    hide Source, Result, Cost, Distance;
    if edits == [] {
      NoEdits();
    } else {
      var before, last := edits[..|edits| - 1], edits[|edits| - 1];
      assert edits == before + [last];
      OneMoreEdit(before, last);
      NoScriptIsCheaper(before);
      var s, t := Source(before), Result(before);
      match last
      case Keep(c) => AppendBoth(s, t, c, c);
      case Replace(c, d) => AppendBoth(s, t, c, d);
      case Insert(c) => AppendOne(s, t, c);
      case Delete(c) => AppendOne(s, t, c);
    }
  }

  lemma NoEdits()
    ensures Source([]) == Result([]) == [] && Cost([]) == 0 && Distance([], []) == 0
  {
  }

  /** Which of its neighbours a distance comes from. */
  lemma DistanceStep(s: string, t: string)
    requires s != [] || t != []
    ensures s == [] ==> Distance(s, t) == Distance(s, t[..|t| - 1]) + 1
    ensures t == [] ==> Distance(s, t) == Distance(s[..|s| - 1], t) + 1
    ensures s != [] && t != [] ==>
              var s', t' := s[..|s| - 1], t[..|t| - 1];
              || Distance(s, t) == Distance(s, t') + 1
              || Distance(s, t) == Distance(s', t) + 1
              || Distance(s, t) == Distance(s', t') + (if s[|s| - 1] == t[|t| - 1] then 0 else 1)
  {
  }

  lemma AppendBoth(s: string, t: string, c: char, d: char)
    ensures Distance(s + [c], t + [d]) <= Distance(s, t) + (if c == d then 0 else 1)
  {
    assert (s + [c])[..|s|] == s && (t + [d])[..|t|] == t;
  }

  lemma {:induction false} AppendOne(s: string, t: string, c: char)
    ensures Distance(s + [c], t) <= Distance(s, t) + 1
    ensures Distance(s, t + [c]) <= Distance(s, t) + 1
  {
    assert (s + [c])[..|s|] == s && (t + [c])[..|t|] == t;
  }

  /** Some edit script costs just the distance. */
  lemma {:induction false} CheapestScript(s: string, t: string) returns (edits: seq<Edit>)
    ensures Source(edits) == s && Result(edits) == t && Cost(edits) == Distance(s, t)
    decreases |s| + |t|
  {
    hide Source, Result, Cost, Distance;
    if s == [] && t == [] {
      NoEdits();
      edits := [];
    } else {
      DistanceStep(s, t);
      var e;
      if s == [] || (t != [] && Distance(s, t) == Distance(s, t[..|t| - 1]) + 1) {
        edits := CheapestScript(s, t[..|t| - 1]);
        e := Insert(t[|t| - 1]);
      } else if t == [] || Distance(s, t) == Distance(s[..|s| - 1], t) + 1 {
        edits := CheapestScript(s[..|s| - 1], t);
        e := Delete(s[|s| - 1]);
      } else {
        var c, d := s[|s| - 1], t[|t| - 1];
        edits := CheapestScript(s[..|s| - 1], t[..|t| - 1]);
        e := if c == d then Keep(c) else Replace(c, d);
      }
      assert s != [] ==> s == s[..|s| - 1] + [s[|s| - 1]];
      assert t != [] ==> t == t[..|t| - 1] + [t[|t| - 1]];
      OneMoreEdit(edits, e);
      edits := edits + [e];
    }
  }

  // ----- the distance is a metric -----

  function Reversed(edits: seq<Edit>): seq<Edit> {
    if edits == [] then []
    else
      Reversed(edits[..|edits| - 1]) +
      [match edits[|edits| - 1]
       case Keep(c) => Keep(c)
       case Replace(c, d) => Replace(d, c)
       case Insert(c) => Delete(c)
       case Delete(c) => Insert(c)]
  }

  lemma {:induction false} ReversedScript(edits: seq<Edit>)
    ensures Source(Reversed(edits)) == Result(edits) && Result(Reversed(edits)) == Source(edits)
    ensures Cost(Reversed(edits)) == Cost(edits)
    decreases |edits|
  {
    if edits != [] {
      var before := edits[..|edits| - 1];
      ReversedScript(before);
      var all := Reversed(edits);
      OneMoreEdit(Reversed(before), all[|all| - 1]);
      assert all == Reversed(before) + [all[|all| - 1]];
    }
  }

  lemma {:induction false} Symmetric(s: string, t: string)
    ensures Distance(s, t) == Distance(t, s)
  {
    var there := CheapestScript(s, t);
    var back := CheapestScript(t, s);
    ReversedScript(there);
    ReversedScript(back);
    NoScriptIsCheaper(Reversed(there));
    NoScriptIsCheaper(Reversed(back));
  }

  /** One script after another, as a single script that costs no more than both. */
  lemma {:induction false} Composed(p: seq<Edit>, q: seq<Edit>) returns (r: seq<Edit>)
    requires Result(p) == Source(q)
    ensures Source(r) == Source(p) && Result(r) == Result(q) && Cost(r) <= Cost(p) + Cost(q)
    decreases |p| + |q|
  {
    if p == [] && q == [] {
      r := [];
    } else if p != [] && p[|p| - 1].Delete? {
      r := Composed(p[..|p| - 1], q);
      OneMoreEdit(r, p[|p| - 1]);
      r := r + [p[|p| - 1]];
    } else if q != [] && q[|q| - 1].Insert? {
      r := Composed(p, q[..|q| - 1]);
      OneMoreEdit(r, q[|q| - 1]);
      r := r + [q[|q| - 1]];
    } else {
      if p == [] || q == [] {
        assert false;
      }
      var p', q', a, b := p[..|p| - 1], q[..|q| - 1], p[|p| - 1], q[|q| - 1];
      var middle := if a.Replace? then a.d else a.c;
      assert Result(p) == Result(p') + [middle] && Source(q) == Source(q') + [b.c];
      assert Result(p)[..|Result(p')|] == Result(p') && Source(q)[..|Source(q')|] == Source(q');
      r := Composed(p', q');
      var merged := Merged(a, b);
      if merged == [] {
      } else {
        OneMoreEdit(r, merged[0]);
        r := r + merged;
      }
    }
  }

  /** What two edits on the same middle character amount to. */
  function Merged(a: Edit, b: Edit): seq<Edit> {
    match (a, b)
    case (Keep(c), _) => [b]
    case (_, Keep(_)) => [a]
    case (Replace(c, _), Replace(_, d)) => if c == d then [Keep(c)] else [Replace(c, d)]
    case (Replace(c, _), Delete(_)) => [Delete(c)]
    case (Insert(_), Replace(_, d)) => [Insert(d)]
    case _ => []
  }

  lemma Triangle(s: string, t: string, u: string)
    ensures Distance(s, u) <= Distance(s, t) + Distance(t, u)
  {
    var p := CheapestScript(s, t);
    var q := CheapestScript(t, u);
    var r := Composed(p, q);
    NoScriptIsCheaper(r);
  }

  lemma {:induction false} ZeroMeansEqual(s: string, t: string)
    ensures Distance(s, t) == 0 <==> s == t
    decreases |s| + |t|
  {
    if s != [] && t != [] {
      var s', t', c, d := s[..|s| - 1], t[..|t| - 1], s[|s| - 1], t[|t| - 1];
      ZeroMeansEqual(s', t');
      assert s == s' + [c] && t == t' + [d];
    }
  }

  lemma {:induction false} DistanceBounds(s: string, t: string)
    ensures |s| - |t| <= Distance(s, t) && |t| - |s| <= Distance(s, t) <= Max(|s|, |t|)
    decreases |s| + |t|
  {
    if s != [] && t != [] {
      var s', t' := s[..|s| - 1], t[..|t| - 1];
      DistanceBounds(s', t');
      DistanceBounds(s', t);
      DistanceBounds(s, t');
    }
  }

  // ----- single edits on whole texts -----

  /** `t` is `s` with one character inserted, deleted or replaced. */
  ghost predicate OneEdit(s: string, t: string) {
    exists i: nat, j: nat, c: string :: IsSplice(s, i, j, c, t) && i <= j <= i + 1 && |c| <= 1
  }

  /** `t` is `s` with the part from i to j replaced by `c`. */
  predicate IsSplice(s: string, i: nat, j: nat, c: string, t: string) {
    i <= j <= |s| && t == s[..i] + c + s[j..]
  }

  ghost predicate EditSequence(texts: seq<string>) {
    && texts != []
    && forall k :: 0 <= k < |texts| - 1 ==> OneEdit(texts[k], texts[k + 1])
  }

  /** A script that changes nothing. */
  lemma {:induction false} Kept(s: string) returns (edits: seq<Edit>)
    ensures Source(edits) == Result(edits) == s && Cost(edits) == 0
  {
    if s == [] {
      edits := [];
    } else {
      edits := Kept(s[..|s| - 1]);
      OneMoreEdit(edits, Keep(s[|s| - 1]));
      edits := edits + [Keep(s[|s| - 1])];
    }
  }

  lemma {:induction false} Concatenated(p: seq<Edit>, q: seq<Edit>) returns (r: seq<Edit>)
    ensures Source(r) == Source(p) + Source(q) && Result(r) == Result(p) + Result(q) && Cost(r) == Cost(p) + Cost(q)
    decreases |q|
  {
    hide Source, Result, Cost;
    NoEdits();
    if q == [] {
      r := p;
    } else {
      r := Concatenated(p, q[..|q| - 1]);
      assert q == q[..|q| - 1] + [q[|q| - 1]];
      OneMoreEdit(q[..|q| - 1], q[|q| - 1]);
      OneMoreEdit(r, q[|q| - 1]);
      r := r + [q[|q| - 1]];
    }
  }

  lemma OneEditCostsOne(s: string, t: string)
    requires OneEdit(s, t)
    ensures Distance(s, t) <= 1
  {
    hide Source, Result, Cost, Distance;
    var i: nat, j: nat, c: string :| IsSplice(s, i, j, c, t) && i <= j <= i + 1 && |c| <= 1;
    var before := Kept(s[..i]);
    var middle := CheapestScript(s[i..j], c);
    var after := Kept(s[j..]);
    DistanceBounds(s[i..j], c);
    var front := Concatenated(before, middle);
    var all := Concatenated(front, after);
    assert s == s[..i] + s[i..j] + s[j..];
    NoScriptIsCheaper(all);
  }

  /** Turning one text into another by single edits takes at least as many edits as their distance. */
  lemma {:induction false} NoSequenceIsShorter(texts: seq<string>)
    requires EditSequence(texts)
    ensures Distance(texts[0], texts[|texts| - 1]) <= |texts| - 1
    decreases |texts|
  {
    if |texts| == 1 {
      ZeroMeansEqual(texts[0], texts[0]);
    } else {
      var n := |texts| - 1;
      var before := texts[..n];
      assert forall k :: 0 <= k < |before| ==> before[k] == texts[k];
      NoSequenceIsShorter(before);
      assert OneEdit(texts[n - 1], texts[n]);
      OneEditCostsOne(texts[n - 1], texts[n]);
      Triangle(texts[0], texts[n - 1], texts[n]);
    }
  }

  /** And some sequence of single edits takes exactly that many. */
  lemma Spliced(before: string, x: string, r: string, rest: string)
    ensures IsSplice(before + (x + rest), |before|, |before| + |x|, r, before + r + rest)
  {
    var from := before + (x + rest);
    assert from[..|before|] == before && from[|before| + |x|..] == rest;
  }

  lemma {:induction false} ShortestSequence(edits: seq<Edit>, rest: string) returns (texts: seq<string>)
    ensures EditSequence(texts) && |texts| == Cost(edits) + 1
    ensures texts[0] == Source(edits) + rest && texts[|texts| - 1] == Result(edits) + rest
    decreases |edits|
  {
    hide Source, Result, Cost;
    NoEdits();
    if edits == [] {
      texts := [rest];
    } else {
      var before, last := edits[..|edits| - 1], edits[|edits| - 1];
      assert edits == before + [last];
      OneMoreEdit(before, last);
      var r := Result(edits)[|Result(before)|..];
      texts := ShortestSequence(before, (if last.Insert? then [] else [last.c]) + rest);
      var x := if last.Insert? then [] else [last.c];
      assert Source(edits) + rest == Source(before) + (x + rest);
      var final := Result(edits) + rest;
      if last.Keep? {
        assert final == Result(before) + (x + rest);
      } else {
        Spliced(Result(before), x, r, rest);
        assert final == Result(before) + r + rest;
        texts := texts + [final];
      }
    }
  }

  lemma DistanceIsShortestSequence(s: string, t: string) returns (texts: seq<string>)
    ensures EditSequence(texts) && texts[0] == s && texts[|texts| - 1] == t && |texts| == Distance(s, t) + 1
  {
    var edits := CheapestScript(s, t);
    texts := ShortestSequence(edits, []);
  }

  // ----- suggestions -----

  /** An option is close to the input if fewer edits lead to it than half the longer of the two, but at
      least one is always too many. */
  predicate Close(input: string, opt: string) {
    Distance(input, opt) < Max(|input| / 2, Max(|opt| / 2, 1))
  }

  /** An option is suggested exactly if it is the input, or the edits and one more are at most half of either text. */
  lemma CloseIff(input: string, opt: string)
    ensures Close(input, opt) <==>
            input == opt || 2 * (Distance(input, opt) + 1) <= |input| || 2 * (Distance(input, opt) + 1) <= |opt|
  {
    hide Distance;
    ZeroMeansEqual(input, opt);
  }

  datatype Suggestion = Suggestion(option: string, distance: nat)

  /** The close options, in the order given, each with its distance. */
  function CloseOptions(input: string, options: seq<string>): seq<Suggestion> {
    if options == [] then []
    else
      var last := options[|options| - 1];
      CloseOptions(input, options[..|options| - 1]) +
      (if Close(input, last) then [Suggestion(last, Distance(input, last))] else [])
  }

  ghost predicate NearestFirst(suggestions: seq<Suggestion>) {
    forall i, j :: 0 <= i < j < |suggestions| ==> suggestions[i].distance <= suggestions[j].distance
  }

  /** The options worth suggesting, nearest first. */
  method SelectSuggestions(options: seq<string>, input: string) returns (selected: seq<Suggestion>)
    ensures multiset(selected) == multiset(CloseOptions(input, options))
    ensures NearestFirst(selected)
  {
    hide Distance;
    selected := [];
    for i := 0 to |options|
      invariant multiset(selected) == multiset(CloseOptions(input, options[..i]))
      invariant NearestFirst(selected)
    {
      assert options[..i + 1][..i] == options[..i];
      var opt := options[i];
      var distance := LevenshteinDistance(input, opt);
      var threshold := Max(|input| / 2, Max(|opt| / 2, 1));
      if distance < threshold {
        selected := InsertByDistance(selected, Suggestion(opt, distance));
      }
    }
    assert options[..|options|] == options;
  }

  method InsertByDistance(sorted: seq<Suggestion>, x: Suggestion) returns (r: seq<Suggestion>)
    requires NearestFirst(sorted)
    ensures NearestFirst(r) && multiset(r) == multiset(sorted) + multiset{x}
  {
    var i := |sorted|;
    while i > 0 && sorted[i - 1].distance > x.distance
      invariant 0 <= i <= |sorted|
      invariant forall k :: i <= k < |sorted| ==> x.distance < sorted[k].distance
    {
      i := i - 1;
    }
    assert forall k :: 0 <= k < i ==> sorted[k].distance <= x.distance;
    r := Inserted(sorted, i, x);
    InsertedElements(sorted, i, x);
  }

  function Inserted<T>(xs: seq<T>, i: nat, x: T): (r: seq<T>)
    requires i <= |xs|
    ensures |r| == |xs| + 1
    ensures forall k :: 0 <= k < |r| ==> r[k] == if k < i then xs[k] else if k == i then x else xs[k - 1]
  {
    xs[..i] + [x] + xs[i..]
  }

  lemma InsertedElements<T>(xs: seq<T>, i: nat, x: T)
    requires i <= |xs|
    ensures multiset(Inserted(xs, i, x)) == multiset(xs) + multiset{x}
  {
    assert xs == xs[..i] + xs[i..];
  }

  /** What was typed is always among the suggestions if it is an option at all, and nothing is suggested
      whose length is too far from that of the input. */
  lemma CloseByLength(input: string, opt: string)
    ensures Close(input, input)
    ensures Close(input, opt) ==>
              var threshold := Max(|input| / 2, Max(|opt| / 2, 1)); |input| - threshold < |opt| < |input| + threshold
  {
    ZeroMeansEqual(input, input);
    DistanceBounds(input, opt);
  }
}
