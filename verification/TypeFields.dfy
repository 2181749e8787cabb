/**
 The visible fields of a struct: the search, the competition of the candidates,
 and the order in which the survivors are handed out.
 */
module TypeFields {
  import opened Wrappers
  import opened Ordering
  import opened DominantFields
  import opened StructFields
  import opened StructSearch
  import opened FieldNames

  /** A search that has ended. */
  ghost predicate Ended(p: Program, root: nat, scan: seq<Scanned>) {
    ScanOk(p, root, scan) && Seen(scan, root, 0) && Finished(p, scan)
  }

  lemma {:induction false} WalkSeen(p: Program, root: nat, scan: seq<Scanned>, path: seq<nat>)
    requires Ended(p, root, scan) && Walk(p, root, path).Some?
    ensures Seen(scan, Walk(p, root, path).value, |path|)
    decreases |path|
  {
    hide At;
    if path != [] {
      WalkSeen(p, root, scan, Front(path));
      var t := Walk(p, root, Front(path)).value;
      var j :| 0 <= j < |scan| && scan[j].typ == t && |scan[j].index| <= |path| - 1;
      assert At(p, scan[j].typ, Last(path)) == Explore(Walk(p, root, path).value);
    }
  }

  /** Each struct was searched at the end of a shortest path to it. */
  lemma ScannedNearest(p: Program, root: nat, scan: seq<Scanned>, j: nat)
    requires Ended(p, root, scan) && j < |scan|
    ensures Nearest(p, root, scan[j].index, scan[j].typ)
  {
    hide Walk, At;
    forall other: seq<nat> | Walk(p, root, other) == Some(scan[j].typ)
      ensures |scan[j].index| <= |other|
    {
      WalkSeen(p, root, scan, other);
    }
  }

  // ----- counting edges -----

  lemma {:induction false} EdgesIn(p: Program, t: nat, u: nat, n: nat)
    ensures EdgeCount(p, t, u, n) > 0 <==> exists i :: 0 <= i < n && At(p, t, i) == Explore(u)
    ensures EdgeCount(p, t, u, n) > 1 <==>
            exists i, i' :: 0 <= i < i' < n && At(p, t, i) == Explore(u) && At(p, t, i') == Explore(u)
  {
    hide At;
    if n > 0 {
      EdgesIn(p, t, u, n - 1);
    }
  }

  /** The embedded field `i` of the struct searched `j`-th, at level `k`, leads to `u`. */
  ghost predicate EdgeAt(p: Program, scan: seq<Scanned>, k: int, u: nat, j: nat, i: nat) {
    j < |scan| && |scan[j].index| == k && At(p, scan[j].typ, i) == Explore(u)
  }

  ghost predicate TwoEdges(p: Program, scan: seq<Scanned>, k: int, u: nat) {
    exists j, i, j', i' :: EdgeAt(p, scan, k, u, j, i) && EdgeAt(p, scan, k, u, j', i') && (j, i) != (j', i')
  }

  lemma {:induction false} TotalIsSome(p: Program, scan: seq<Scanned>, k: int, u: nat)
    ensures TotalEdges(p, scan, k, u) > 0 <==> exists j, i :: EdgeAt(p, scan, k, u, j, i)
  {
    hide At;
    if scan != [] {
      var init, last := scan[..|scan| - 1], scan[|scan| - 1];
      TotalIsSome(p, init, k, u);
      EdgesIn(p, last.typ, u, Size(p, last.typ));
      if TotalEdges(p, init, k, u) > 0 {
        var j: nat, i: nat :| EdgeAt(p, init, k, u, j, i);
        assert EdgeAt(p, scan, k, u, j, i);
      } else if TotalEdges(p, scan, k, u) > 0 {
        var i :| 0 <= i < Size(p, last.typ) && At(p, last.typ, i) == Explore(u);
        assert EdgeAt(p, scan, k, u, |scan| - 1, i);
      }
      if j: nat, i: nat :| EdgeAt(p, scan, k, u, j, i) {
        if j < |scan| - 1 {
          assert EdgeAt(p, init, k, u, j, i);
        } else {
          ExploreIsInside(p, last.typ, i);
        }
      }
    }
  }

  lemma {:induction false} TotalIsMore(p: Program, scan: seq<Scanned>, k: int, u: nat)
    ensures TotalEdges(p, scan, k, u) > 1 <==> TwoEdges(p, scan, k, u)
  {
    hide At;
    if scan != [] {
      var init, last := scan[..|scan| - 1], scan[|scan| - 1];
      TotalIsMore(p, init, k, u);
      TotalIsSome(p, init, k, u);
      EdgesIn(p, last.typ, u, Size(p, last.typ));
      if TotalEdges(p, scan, k, u) > 1 {
        TwoFromTotal(p, scan, k, u);
      }
      if TwoEdges(p, scan, k, u) {
        TotalFromTwo(p, scan, k, u);
      }
    }
  }

  lemma TwoFromTotal(p: Program, scan: seq<Scanned>, k: int, u: nat)
    requires scan != [] && TotalEdges(p, scan, k, u) > 1
    requires TotalEdges(p, scan[..|scan| - 1], k, u) > 1 ==> TwoEdges(p, scan[..|scan| - 1], k, u)
    ensures TwoEdges(p, scan, k, u)
  {
    hide At, EdgeCount;
    var init, n := scan[..|scan| - 1], |scan| - 1;
    var last := scan[n];
    TotalIsSome(p, init, k, u);
    EdgesIn(p, last.typ, u, Size(p, last.typ));
    if TotalEdges(p, init, k, u) > 1 {
      var j: nat, i: nat, j': nat, i': nat :| EdgeAt(p, init, k, u, j, i) && EdgeAt(p, init, k, u, j', i') &&
        (j, i) != (j', i');
      assert EdgeAt(p, scan, k, u, j, i) && EdgeAt(p, scan, k, u, j', i');
    } else if TotalEdges(p, init, k, u) == 1 {
      var j: nat, i: nat :| EdgeAt(p, init, k, u, j, i);
      var i' :| 0 <= i' < Size(p, last.typ) && At(p, last.typ, i') == Explore(u);
      assert EdgeAt(p, scan, k, u, j, i) && EdgeAt(p, scan, k, u, n, i');
    } else {
      var i, i' :| 0 <= i < i' < Size(p, last.typ) && At(p, last.typ, i) == Explore(u) &&
                   At(p, last.typ, i') == Explore(u);
      assert EdgeAt(p, scan, k, u, n, i) && EdgeAt(p, scan, k, u, n, i');
    }
  }

  lemma TotalFromTwo(p: Program, scan: seq<Scanned>, k: int, u: nat)
    requires scan != [] && TwoEdges(p, scan, k, u)
    requires TwoEdges(p, scan[..|scan| - 1], k, u) ==> TotalEdges(p, scan[..|scan| - 1], k, u) > 1
    ensures TotalEdges(p, scan, k, u) > 1
  {
    hide At, EdgeCount, TotalEdges, EdgeAt;
    var init, n := scan[..|scan| - 1], |scan| - 1;
    var last := scan[n];
    TotalIsSome(p, init, k, u);
    assert scan == init + [last];
    TotalOneMore(p, init, last, k, u);
    var j: nat, i: nat, j': nat, i': nat :| EdgeAt(p, scan, k, u, j, i) && EdgeAt(p, scan, k, u, j', i') &&
      (j, i) != (j', i');
    EdgeIn(p, scan, k, u, j, i);
    EdgeIn(p, scan, k, u, j', i');
    EdgesIn(p, last.typ, u, Size(p, last.typ));
    assert j == j' == n ==> i < i' || i' < i;
  }

  lemma EdgeIn(p: Program, scan: seq<Scanned>, k: int, u: nat, j: nat, i: nat)
    requires EdgeAt(p, scan, k, u, j, i)
    ensures j < |scan|
    ensures j < |scan| - 1 ==> EdgeAt(p, scan[..|scan| - 1], k, u, j, i)
    ensures j == |scan| - 1 ==>
              |scan[j].index| == k && 0 <= i < Size(p, scan[j].typ) && At(p, scan[j].typ, i) == Explore(u)
  {
    ExploreIsInside(p, scan[j].typ, i);
  }

  /** A struct's fields are recorded twice exactly if two embedded fields end shortest paths to it. */
  lemma TwiceIffDoubled(p: Program, root: nat, scan: seq<Scanned>, m: nat)
    requires Ended(p, root, scan) && m < |scan|
    ensures scan[m].twice <==> Doubled(p, root, scan[m].typ)
  {
    hide Walk, At, TotalEdges, Nearest;
    var t, k := scan[m].typ, |scan[m].index| - 1;
    TotalIsMore(p, scan, k, t);
    if TwoEdges(p, scan, k, t) {
      var j: nat, i: nat, j': nat, i': nat :| EdgeAt(p, scan, k, t, j, i) && EdgeAt(p, scan, k, t, j', i') &&
        (j, i) != (j', i');
      EdgeFrom(p, root, scan, m, j, i);
      EdgeFrom(p, root, scan, m, j', i');
      assert scan[j].typ == scan[j'].typ ==> j == j';
    }
    if Doubled(p, root, t) {
      var a, u: nat, i: nat, b, v: nat, i': nat :| Edge(p, root, a, u, i, t) && Edge(p, root, b, v, i', t) &&
        (u, i) != (v, i');
      var j := EdgeTo(p, root, scan, m, a, u, i);
      var j' := EdgeTo(p, root, scan, m, b, v, i');
      assert TwoEdges(p, scan, k, t);
    }
  }

  lemma EdgeFrom(p: Program, root: nat, scan: seq<Scanned>, m: nat, j: nat, i: nat)
    requires Ended(p, root, scan) && m < |scan| && EdgeAt(p, scan, |scan[m].index| - 1, scan[m].typ, j, i)
    ensures Edge(p, root, scan[j].index, scan[j].typ, i, scan[m].typ)
  {
    hide Walk, At, TotalEdges;
    ScannedNearest(p, root, scan, j);
    ScannedNearest(p, root, scan, m);
    WalkOneMore(p, root, scan[j].index, scan[j].typ, i);
  }

  lemma EdgeTo(p: Program, root: nat, scan: seq<Scanned>, m: nat, a: seq<nat>, u: nat, i: nat) returns (j: nat)
    requires Ended(p, root, scan) && m < |scan| && Edge(p, root, a, u, i, scan[m].typ)
    ensures EdgeAt(p, scan, |scan[m].index| - 1, scan[m].typ, j, i) && scan[j].typ == u
  {
    hide Walk, At, TotalEdges;
    WalkSeen(p, root, scan, a);
    j :| 0 <= j < |scan| && scan[j].typ == u && |scan[j].index| <= |a|;
    ScannedNearest(p, root, scan, j);
    ScannedNearest(p, root, scan, m);
    assert |a + [i]| == |scan[m].index|;
  }

  // ----- counting candidates -----

  /** `c` is one of the first `n` fields of the struct, to be recorded, at `index`. */
  ghost predicate InStruct(p: Program, t: nat, index: seq<nat>, n: nat, c: Candidate) {
    c.index != [] && Front(c.index) == index && Last(c.index) < n && At(p, t, Last(c.index)) == Record(c.name, c.tagged)
  }

  lemma CountOne(p: Program, t: nat, index: seq<nat>, twice: bool, i: nat, c: Candidate)
    ensures multiset(OneField(p, t, index, twice, i))[c] ==
              if c.index == index + [i] && At(p, t, i) == Record(c.name, c.tagged) then (if twice then 2 else 1) else 0
  {
  }

  lemma {:induction false} CountInStruct(p: Program, t: nat, index: seq<nat>, twice: bool, n: nat, c: Candidate)
    ensures multiset(FieldsOf(p, t, index, twice, n))[c] == if !InStruct(p, t, index, n, c) then 0 else if twice then 2
            else 1
  {
    hide At, OneField;
    if n > 0 {
      CountInStruct(p, t, index, twice, n - 1, c);
      CountOne(p, t, index, twice, n - 1, c);
      assert Front(index + [n - 1]) == index && Last(index + [n - 1]) == n - 1;
      if c.index != [] && Front(c.index) == index && Last(c.index) == n - 1 {
        assert c.index == index + [n - 1];
      }
      var before, one := FieldsOf(p, t, index, twice, n - 1), OneField(p, t, index, twice, n - 1);
      assert multiset(before + one)[c] == multiset(before)[c] + multiset(one)[c];
    }
  }

  ghost predicate InScan(p: Program, scan: seq<Scanned>, j: nat, c: Candidate) {
    j < |scan| && InStruct(p, scan[j].typ, scan[j].index, Size(p, scan[j].typ), c)
  }

  ghost predicate DistinctPaths(scan: seq<Scanned>) {
    forall i, j :: 0 <= i < j < |scan| ==> scan[i].index != scan[j].index
  }

  lemma {:induction false} CountInAll(p: Program, scan: seq<Scanned>, c: Candidate)
    requires DistinctPaths(scan)
    ensures forall j: nat :: InScan(p, scan, j, c) ==>
            multiset(FieldsOfAll(p, scan))[c] == if scan[j].twice then 2 else 1
    ensures c in FieldsOfAll(p, scan) ==> exists j: nat :: InScan(p, scan, j, c)
  {
    hide InStruct, FieldsOf;
    if scan != [] {
      var init, n := scan[..|scan| - 1], |scan| - 1;
      var last := scan[n];
      CountInAll(p, init, c);
      CountInStruct(p, last.typ, last.index, last.twice, Size(p, last.typ), c);
      assert multiset(FieldsOfAll(p, scan))[c] ==
        multiset(FieldsOfAll(p, init))[c] +
        multiset(FieldsOf(p, last.typ, last.index, last.twice, Size(p, last.typ)))[c];
      forall j: nat | InScan(p, scan, j, c)
        ensures multiset(FieldsOfAll(p, scan))[c] == if scan[j].twice then 2 else 1
      {
        OnlyOneStruct(p, scan, c, j);
        if j < n {
          assert InScan(p, init, j, c);
          assert !InScan(p, scan, n, c);
        } else {
          NotBefore(p, init, scan, c);
        }
      }
      if c in FieldsOfAll(p, init) {
        var j: nat :| InScan(p, init, j, c);
        assert InScan(p, scan, j, c);
      } else if c in FieldsOfAll(p, scan) {
        assert InScan(p, scan, n, c);
      }
    }
  }

  lemma NotBefore(p: Program, init: seq<Scanned>, scan: seq<Scanned>, c: Candidate)
    requires DistinctPaths(scan) && scan != [] && init == scan[..|scan| - 1] && InScan(p, scan, |init|, c)
    ensures forall j: nat :: !InScan(p, init, j, c)
  {
    hide At;
  }

  lemma OnlyOneStruct(p: Program, scan: seq<Scanned>, c: Candidate, j: nat)
    requires DistinctPaths(scan) && InScan(p, scan, j, c)
    ensures forall j' :: InScan(p, scan, j', c) ==> j' == j
  {
  }

  // ----- the search as a whole -----

  lemma PathsAreDistinct(p: Program, root: nat, scan: seq<Scanned>)
    requires ScanOk(p, root, scan)
    ensures DistinctPaths(scan)
  {
    hide Walk, TotalEdges;
  }

  lemma InScanRecords(p: Program, root: nat, scan: seq<Scanned>, j: nat, c: Candidate)
    requires ScanOk(p, root, scan) && InScan(p, scan, j, c)
    ensures Records(p, root, c.index, c) && Holder(p, root, c) == Some(scan[j].typ) && Front(c.index) == scan[j].index
  {
    hide Walk, TotalEdges, At;
  }

  lemma SearchIsSound(p: Program, root: nat, scan: seq<Scanned>, c: Candidate) returns (j: nat)
    requires Ended(p, root, scan) && c in FieldsOfAll(p, scan)
    ensures InScan(p, scan, j, c)
    ensures Records(p, root, c.index, c) && Holder(p, root, c) == Some(scan[j].typ) && Front(c.index) == scan[j].index
    ensures Nearest(p, root, Front(c.index), scan[j].typ)
    ensures multiset(FieldsOfAll(p, scan))[c] == if Doubled(p, root, scan[j].typ) then 2 else 1
  {
    hide Walk, TotalEdges, At, Nearest, Doubled, FieldsOfAll, InScan, ScanOk, Finished, Seen;
    PathsAreDistinct(p, root, scan);
    CountInAll(p, scan, c);
    j :| InScan(p, scan, j, c);
    InScanRecords(p, root, scan, j, c);
    ScanBounds(p, scan, j, c);
    ScannedNearest(p, root, scan, j);
    TwiceIffDoubled(p, root, scan, j);
  }

  lemma ScanBounds(p: Program, scan: seq<Scanned>, j: nat, c: Candidate)
    requires InScan(p, scan, j, c)
    ensures j < |scan|
  {
  }

  lemma SearchIsComplete(p: Program, root: nat, scan: seq<Scanned>, c: Candidate) returns (d: Candidate)
    requires Ended(p, root, scan) && Records(p, root, c.index, c)
    ensures d in FieldsOfAll(p, scan) && SameField(p, root, c, d)
  {
    hide TotalEdges, FieldsOfAll, Finished, At, Walk;
    var t := Holder(p, root, c).value;
    WalkSeen(p, root, scan, Front(c.index));
    var j :| 0 <= j < |scan| && scan[j].typ == t;
    var i := Last(c.index);
    d := Candidate(c.name, c.tagged, scan[j].index + [i]);
    assert Front(d.index) == scan[j].index;
    RecordIsInside(p, t, i);
    assert InScan(p, scan, j, d);
    PathsAreDistinct(p, root, scan);
    CountInAll(p, scan, d);
    assert d in multiset(FieldsOfAll(p, scan));
  }

  lemma RecordIsInside(p: Program, t: nat, i: nat)
    requires At(p, t, i).Record?
    ensures i < Size(p, t)
  {
  }

  lemma SearchCollects(p: Program, root: nat, scan: seq<Scanned>)
    requires Ended(p, root, scan)
    ensures Collected(p, root, FieldsOfAll(p, scan))
  {
    hide Walk, At, FieldsOfAll, Nearest, Doubled, Records, Holder, SameField, Ended, InScan;
    var found := FieldsOfAll(p, scan);
    forall c | c in found
      ensures Records(p, root, c.index, c) && Holder(p, root, c).Some? &&
              Nearest(p, root, Front(c.index), Holder(p, root, c).value)
      ensures multiset(found)[c] == if Doubled(p, root, Holder(p, root, c).value) then 2 else 1
    {
      var j := SearchIsSound(p, root, scan, c);
    }
    forall c: Candidate | Records(p, root, c.index, c)
      ensures exists d :: d in found && SameField(p, root, c, d)
    {
      var d := SearchIsComplete(p, root, scan, c);
    }
    forall c, d | c in found && d in found && SameField(p, root, c, d)
      ensures c == d
    {
      var j := SearchIsSound(p, root, scan, c);
      var j' := SearchIsSound(p, root, scan, d);
      SameHolder(p, root, scan, c, d, j, j');
      SamePlace(p, root, c, d);
    }
  }

  lemma SameHolder(p: Program, root: nat, scan: seq<Scanned>, c: Candidate, d: Candidate, j: nat, j': nat)
    requires Ended(p, root, scan) && SameField(p, root, c, d) && InScan(p, scan, j, c) && InScan(p, scan, j', d)
    requires Holder(p, root, c) == Some(scan[j].typ) && Holder(p, root, d) == Some(scan[j'].typ)
    ensures j == j'
  {
    hide Walk, TotalEdges, Seen, Finished, InStruct;
  }

  // ----- the whole -----

  function IndexLess(x: Candidate, y: Candidate): bool {
    LexLess(x.index, y.index)
  }

  lemma IndexSortable()
    ensures Sortable(IndexLess)
  {
    forall a, b | IndexLess(a, b)
      ensures !IndexLess(b, a)
    {
      LexIrreflexive(a.index);
      if LexLess(b.index, a.index) {
        LexTransitive(a.index, b.index, a.index);
      }
    }
    forall a, b, c | !IndexLess(b, a) && !IndexLess(c, b)
      ensures !IndexLess(c, a)
    {
      LexTotal(a.index, b.index);
      LexTotal(b.index, c.index);
      if LexLess(a.index, b.index) && LexLess(b.index, c.index) {
        LexTransitive(a.index, b.index, c.index);
      }
      LexIrreflexive(c.index);
      if LexLess(c.index, a.index) && LexLess(a.index, c.index) {
        LexTransitive(c.index, a.index, c.index);
      }
    }
  }

  lemma {:induction false} CountAt(s: seq<Candidate>, i: nat, j: nat)
    requires i < j < |s| && s[i] == s[j]
    ensures multiset(s)[s[i]] >= 2
  {
    OneMoreAt(s, j);
    var rest := s[..j] + s[j + 1..];
    assert rest[i] == s[i];
    assert s[i] in multiset(rest);
  }

  /** Names stay distinct when a sequence is rearranged. */
  lemma DistinctNamesPermuted(s: seq<Candidate>, r: seq<Candidate>)
    requires DistinctNames(s) && multiset(s) == multiset(r)
    ensures DistinctNames(r)
  {
    forall i, j | 0 <= i < j < |r|
      ensures r[i].name != r[j].name
    {
      assert r[i] in multiset(s) && r[j] in multiset(s);
      var k :| 0 <= k < |s| && s[k] == r[i];
      var m :| 0 <= m < |s| && s[m] == r[j];
      if k == m {
        CountAt(r, i, j);
        CountedOnce(s, k);
      }
    }
  }

  lemma CountedOnce(s: seq<Candidate>, k: nat)
    requires DistinctNames(s) && k < |s|
    ensures multiset(s)[s[k]] == 1
  {
    OneMoreAt(s, k);
    var rest := s[..k] + s[k + 1..];
    forall j | 0 <= j < |rest|
      ensures rest[j] != s[k]
    {
      assert rest[j] == s[if j < k then j else j + 1];
    }
    assert s[k] !in multiset(rest);
  }

  lemma SurvivorsRemain(sorted: seq<Candidate>, out: seq<Candidate>, fields: seq<Candidate>)
    requires out == Survivors(sorted, |sorted|) && multiset(fields) == multiset(out)
    ensures forall c :: c in fields <==> SurvivesAmong(multiset(sorted), c)
    ensures DistinctNames(fields)
  {
    hide Survivors, Survives, SurvivesAmong, DistinctNames;
    SurvivorsHaveDistinctNames(sorted, |sorted|);
    DistinctNamesPermuted(out, fields);
    forall c
      ensures c in fields <==> SurvivesAmong(multiset(sorted), c)
    {
      assert c in fields <==> c in multiset(out);
      SurvivorsHas(sorted, |sorted|, c);
      SurvivesWhateverTheOrder(sorted, c);
    }
  }

  lemma IndicesDiffer(p: Program, root: nat, found: seq<Candidate>, fields: seq<Candidate>)
    requires Collected(p, root, found) && (forall c :: c in fields ==> c in found)
    requires DistinctNames(fields) && IsSorted(IndexLess, fields)
    ensures forall i, j :: 0 <= i < j < |fields| ==> LexLess(fields[i].index, fields[j].index)
  {
    hide Collected, LexLess;
    forall i, j | 0 <= i < j < |fields|
      ensures LexLess(fields[i].index, fields[j].index)
    {
      var c, d := fields[i], fields[j];
      assert !IndexLess(d, c);
      LexTotal(c.index, d.index);
      FoundIsRecorded(p, root, found, c);
      FoundIsRecorded(p, root, found, d);
      if c.index == d.index {
        IndexDecides(p, root, c, d);
      }
    }
  }

  lemma SurvivorsWereFound(found: seq<Candidate>, fields: seq<Candidate>)
    requires forall c :: c in fields <==> SurvivesAmong(multiset(found), c)
    ensures forall c :: c in fields ==> c in found
  {
    forall c | c in fields
      ensures c in found
    {
      assert c in multiset(found);
    }
  }

  /** The visible fields in the order of their indices: `found` is all that the search finds. Told without the
      search: each field handed out is one of the struct, under the name that its tag gives it or else its own, and
      each field that Go's rule promotes is handed out. */
  method VisibleFields(p: Program, root: nat) returns (fields: seq<Candidate>, ghost found: seq<Candidate>)
    requires p.WellFormed() && root < |p.structs|
    ensures Collected(p, root, found)
    ensures forall c :: c in fields <==> SurvivesAmong(multiset(found), c)
    ensures DistinctNames(fields)
    ensures forall i, j :: 0 <= i < j < |fields| ==> LexLess(fields[i].index, fields[j].index)
    ensures forall c :: c in fields ==> FieldOf(p, root, c)
    ensures forall c :: Promoted(p, root, c) ==> c in fields
  {
    hide FieldOf, Promoted;
    hide Collected, CandidateLess, IndexLess, Survivors, Survives, SurvivesAmong, Sortable, IsSorted;
    ghost var scan;
    var candidates;
    candidates, scan := CollectFields(p, root);
    SearchCollects(p, root, scan);
    found := candidates;
    CandidatesSortable();
    candidates := Sort(CandidateLess, candidates);
    var a := new Candidate[|candidates|](i requires 0 <= i < |candidates| => candidates[i]);
    assert a[..] == candidates;
    var n := Annihilate(a);
    var out := a[..n];
    IndexSortable();
    fields := Sort(IndexLess, out);
    SurvivorsRemain(candidates, out, fields);
    assert multiset(candidates) == multiset(found);
    SurvivorsWereFound(found, fields);
    IndicesDiffer(p, root, found, fields);
    forall c
      ensures c in fields ==> FieldOf(p, root, c)
      ensures Promoted(p, root, c) ==> c in fields
    {
      HandedOut(p, root, found, c);
    }
  }
}
