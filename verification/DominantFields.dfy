/**
 Which of the fields found in a struct and in the structs embedded in it are
 visible: candidates of one name compete, and at most one of them survives.
 */
module DominantFields {
  import opened Ordering

  /** A field found at `index`, the path of field numbers that leads to it; `tagged` if a tag names it. */
  datatype Candidate = Candidate(name: string, tagged: bool, index: seq<nat>)

  // ----- the order in which candidates compete -----

  function CandidateLess(x: Candidate, y: Candidate): bool {
    if x.name != y.name then StringLess(x.name, y.name)
    else if |x.index| != |y.index| then |x.index| < |y.index|
    else if x.tagged != y.tagged then x.tagged
    else LexLess(x.index, y.index)
  }

  lemma CandidatesTotal(x: Candidate, y: Candidate)
    ensures CandidateLess(x, y) || CandidateLess(y, x) || x == y
    ensures !(CandidateLess(x, y) && CandidateLess(y, x))
  {
    StringTotal(x.name, y.name);
    LexTotal(x.index, y.index);
    LexIrreflexive(x.index);
    if LexLess(x.index, y.index) && LexLess(y.index, x.index) {
      LexTransitive(x.index, y.index, x.index);
    }
  }

  lemma CandidatesTransitive(x: Candidate, y: Candidate, z: Candidate)
    requires CandidateLess(x, y) && CandidateLess(y, z)
    ensures CandidateLess(x, z)
  {
    if x.name != y.name && y.name != z.name {
      StringTransitive(x.name, y.name, z.name);
      StringTotal(x.name, z.name);
    } else if x.name == y.name == z.name && LexLess(x.index, y.index) && LexLess(y.index, z.index) {
      LexTransitive(x.index, y.index, z.index);
    }
  }

  lemma CandidatesSortable()
    ensures Sortable(CandidateLess)
  {
    hide CandidateLess;
    forall a, b | CandidateLess(a, b)
      ensures !CandidateLess(b, a)
    {
      CandidatesTotal(a, b);
    }
    forall a, b, c | !CandidateLess(b, a) && !CandidateLess(c, b)
      ensures !CandidateLess(c, a)
    {
      CandidatesTotal(a, b);
      CandidatesTotal(b, c);
      CandidatesTotal(a, c);
      if CandidateLess(a, b) && CandidateLess(b, c) {
        CandidatesTransitive(a, b, c);
      }
    }
  }

  // ----- who survives -----

  predicate Beats(c: Candidate, d: Candidate) {
    |c.index| < |d.index| || (|c.index| == |d.index| && c.tagged && !d.tagged)
  }

  ghost predicate Survives(s: seq<Candidate>, i: nat) {
    i < |s| && forall j :: 0 <= j < |s| && j != i && s[j].name == s[i].name ==> Beats(s[i], s[j])
  }

  ghost function Shallowest(s: seq<Candidate>, name: string): set<nat> {
    set i | 0 <= i < |s| && s[i].name == name
      && forall j :: 0 <= j < |s| && s[j].name == name ==> |s[i].index| <= |s[j].index|
  }

  /** A candidate survives if among the shallowest of its name it is the only tagged one, or if none of them
      is tagged and it is alone. */
  lemma SurvivesIff(s: seq<Candidate>, i: nat)
    requires i < |s|
    ensures Survives(s, i) <==>
            (var top := Shallowest(s, s[i].name);
             i in top && if s[i].tagged then forall j :: j in top && s[j].tagged ==> j == i else top == {i})
  {
    var top := Shallowest(s, s[i].name);
    if Survives(s, i) {
      assert i in top;
      if !s[i].tagged {
        assert forall j :: j in top && j != i ==> !Beats(s[i], s[j]);
      }
    } else {
      var j :| 0 <= j < |s| && j != i && s[j].name == s[i].name && !Beats(s[i], s[j]);
      if i in top {
        assert |s[j].index| == |s[i].index|;
        assert j in top;
      }
    }
  }

  /** The candidates that survive, in the order they stand. */
  ghost function Survivors(s: seq<Candidate>, k: nat): seq<Candidate>
    requires k <= |s|
  {
    if k == 0 then []
    else Survivors(s, k - 1) + if Survives(s, k - 1) then [s[k - 1]] else []
  }

  lemma {:induction false} SurvivorsHas(s: seq<Candidate>, k: nat, c: Candidate)
    requires k <= |s|
    ensures c in Survivors(s, k) <==> exists i :: 0 <= i < k && Survives(s, i) && s[i] == c
  {
    hide Survives;
    if k > 0 {
      SurvivorsHas(s, k - 1, c);
      assert c in Survivors(s, k) <==> c in Survivors(s, k - 1) || (Survives(s, k - 1) && s[k - 1] == c);
    }
  }

  lemma OnlyOneSurvives(s: seq<Candidate>, i: nat, j: nat)
    requires Survives(s, i) && i != j && j < |s| && s[i].name == s[j].name
    ensures !Survives(s, j)
  {
    assert Beats(s[i], s[j]) && !Beats(s[j], s[i]);
  }

  lemma Differ(s: seq<Candidate>, i: nat, j: nat)
    requires Survives(s, i) && Survives(s, j) && i != j
    ensures s[i].name != s[j].name
  {
  }

  lemma NoneYet(s: seq<Candidate>)
    ensures Survivors(s, 0) == []
  {
  }

  ghost predicate DistinctNames(s: seq<Candidate>) {
    forall i, j :: 0 <= i < j < |s| ==> s[i].name != s[j].name
  }

  lemma {:induction false} SurvivorsHaveDistinctNames(s: seq<Candidate>, k: nat)
    requires k <= |s|
    ensures DistinctNames(Survivors(s, k))
  {
    hide Survives;
    if k > 0 {
      SurvivorsHaveDistinctNames(s, k - 1);
      var before := Survivors(s, k - 1);
      if Survives(s, k - 1) {
        forall c | c in before
          ensures c.name != s[k - 1].name
        {
          SurvivorsHas(s, k - 1, c);
          var i :| 0 <= i < k - 1 && Survives(s, i) && s[i] == c;
          Differ(s, i, k - 1);
        }
        assert Survivors(s, k) == before + [s[k - 1]];
      } else {
        assert Survivors(s, k) == before;
      }
    }
  }

  /** Whether a candidate survives depends on which candidates there are and how often, not on their order. */
  ghost predicate SurvivesAmong(m: multiset<Candidate>, c: Candidate) {
    m[c] == 1 && forall d :: d in m && d != c && d.name == c.name ==> Beats(c, d)
  }

  lemma OneMoreAt(s: seq<Candidate>, i: nat)
    requires i < |s|
    ensures multiset(s) == multiset(s[..i] + s[i + 1..]) + multiset{s[i]}
  {
    assert s == s[..i] + [s[i]] + s[i + 1..];
  }

  lemma SurvivorIsAmong(s: seq<Candidate>, i: nat)
    requires Survives(s, i)
    ensures SurvivesAmong(multiset(s), s[i])
  {
    OneMoreAt(s, i);
    var rest := s[..i] + s[i + 1..];
    forall j | 0 <= j < |rest|
      ensures rest[j] != s[i]
    {
      var k := if j < i then j else j + 1;
      assert rest[j] == s[k];
      assert s[k].name == s[i].name ==> Beats(s[i], s[k]);
    }
    assert s[i] !in multiset(rest);
    forall d | d in multiset(s) && d != s[i] && d.name == s[i].name
      ensures Beats(s[i], d)
    {
      assert d in s;
    }
  }

  lemma AmongIsSurvivor(s: seq<Candidate>, i: nat)
    requires i < |s| && SurvivesAmong(multiset(s), s[i])
    ensures Survives(s, i)
  {
    hide Beats;
    OneMoreAt(s, i);
    var rest := s[..i] + s[i + 1..];
    assert s[i] !in multiset(rest);
    forall j | 0 <= j < |s| && j != i && s[j].name == s[i].name
      ensures Beats(s[i], s[j])
    {
      assert s[j] == rest[if j < i then j else j - 1];
      assert s[j] in multiset(rest);
      assert s[j] in multiset(s);
    }
  }

  lemma SurvivesWhateverTheOrder(s: seq<Candidate>, c: Candidate)
    ensures (exists i :: 0 <= i < |s| && Survives(s, i) && s[i] == c) <==> SurvivesAmong(multiset(s), c)
  {
    hide Survives;
    forall i | 0 <= i < |s| && s[i] == c
      ensures Survives(s, i) <==> SurvivesAmong(multiset(s), c)
    {
      if Survives(s, i) {
        SurvivorIsAmong(s, i);
      }
      if SurvivesAmong(multiset(s), c) {
        AmongIsSurvivor(s, i);
      }
    }
    if SurvivesAmong(multiset(s), c) {
      assert c in s;
    }
  }

  // ----- one name -----

  ghost predicate OneName(s: seq<Candidate>) {
    && |s| > 0
    && (forall i :: 0 <= i < |s| ==> s[i].name == s[0].name)
    && (forall i, j :: 0 <= i <= j < |s| ==> |s[i].index| <= |s[j].index|)
  }

  method DominantField(fields: seq<Candidate>) returns (dominant: Candidate, ok: bool, ghost at: nat)
    requires OneName(fields)
    ensures ok ==> Survives(fields, at) && dominant == fields[at]
    ensures ok <==> exists i :: Survives(fields, i)
  {
    var length := |fields[0].index|;
    var tagged := -1;
    var i := 0;
    while i < |fields| && |fields[i].index| <= length
      invariant 0 <= i <= |fields|
      invariant forall j :: 0 <= j < i ==> |fields[j].index| == length
      invariant -1 <= tagged < i
      invariant tagged >= 0 ==> fields[tagged].tagged
      invariant forall j :: 0 <= j < i && j != tagged ==> !fields[j].tagged
    {
      if fields[i].tagged {
        if tagged >= 0 {
          forall k: nat
            ensures !Survives(fields, k)
          {
            if k < |fields| {
              assert !Beats(fields[k], fields[if k == tagged then i else tagged]);
            }
          }
          return fields[0], false, 0;
        }
        tagged := i;
      }
      i := i + 1;
    }
    if tagged >= 0 {
      assert Survives(fields, tagged);
      return fields[tagged], true, tagged;
    }
    if i > 1 {
      forall k: nat
        ensures !Survives(fields, k)
      {
        if k < |fields| {
          assert !Beats(fields[k], fields[if k == 0 then 1 else 0]);
        }
      }
      return fields[0], false, 0;
    }
    assert Survives(fields, 0);
    return fields[0], true, 0;
  }

  /** Where all candidates of a name stand side by side, the others do not matter. */
  lemma SurvivesInGroup(s: seq<Candidate>, i: nat, m: nat, j: nat)
    requires i + m <= |s| && j < m
    requires forall k :: 0 <= k < |s| ==> (s[k].name == s[i + j].name <==> i <= k < i + m)
    ensures Survives(s, i + j) <==> Survives(s[i..i + m], j)
  {
    if Survives(s[i..i + m], j) {
      forall k | 0 <= k < |s| && k != i + j && s[k].name == s[i + j].name
        ensures Beats(s[i + j], s[k])
      {
        assert s[k] == s[i..i + m][k - i];
      }
    }
  }

  /** A group adds its one survivor, if it has one. */
  lemma {:induction false} SurvivorsOfGroup(s: seq<Candidate>, i: nat, m: nat, found: bool, at: nat)
    requires i + m <= |s|
    requires found ==> i <= at < i + m && Survives(s, at)
    requires forall k :: i <= k < i + m && Survives(s, k) ==> found && k == at
    ensures Survivors(s, i + m) == Survivors(s, i) + if found then [s[at]] else []
  {
    hide Survives;
    if m > 0 {
      var last := i + m - 1;
      if Survives(s, last) {
        SurvivorsOfGroup(s, i, m - 1, false, 0);
      } else {
        SurvivorsOfGroup(s, i, m - 1, found, at);
      }
    }
  }

  // ----- the compaction -----

  /** Candidates of one name stand side by side, shallow ones first. */
  lemma GroupsAreTogether(s: seq<Candidate>, i: nat, j: nat, k: nat)
    requires IsSorted(CandidateLess, s) && i <= j <= k < |s| && s[i].name == s[k].name
    ensures s[j].name == s[i].name && |s[i].index| <= |s[j].index|
  {
    if i < j < k {
      assert !CandidateLess(s[j], s[i]);
      assert !CandidateLess(s[k], s[j]);
      StringTotal(s[i].name, s[j].name);
      StringTotal(s[j].name, s[k].name);
    } else if i < j {
      assert !CandidateLess(s[j], s[i]);
    }
  }

  method Put(fields: array<Candidate>, n: nat, c: Candidate)
    requires n < fields.Length
    modifies fields
    ensures fields[..n + 1] == old(fields[..n]) + [c]
    ensures forall k :: n < k < fields.Length ==> fields[k] == old(fields[k])
  {
    fields[n] := c;
    assert fields[..n] == old(fields[..n]);
  }

  /** How many candidates from `i` on have the name of the first. */
  method Advance(fields: array<Candidate>, i: nat) returns (advance: nat)
    requires i < fields.Length
    ensures 0 < advance && i + advance <= fields.Length
    ensures forall k :: i <= k < i + advance ==> fields[k].name == fields[i].name
    ensures i + advance < fields.Length ==> fields[i + advance].name != fields[i].name
  {
    advance := 1;
    while i + advance < fields.Length && fields[i + advance].name == fields[i].name
      invariant 0 < advance && i + advance <= fields.Length
      invariant forall k :: i <= k < i + advance ==> fields[k].name == fields[i].name
    {
      advance := advance + 1;
    }
  }

  /** The array is rewritten from the front while its rest is still being read. */
  method Annihilate(fields: array<Candidate>) returns (n: nat)
    requires IsSorted(CandidateLess, fields[..])
    modifies fields
    ensures n <= fields.Length
    ensures fields[..n] == Survivors(old(fields[..]), fields.Length)
  {
    hide CandidateLess, Survives, IsSorted, Survivors, OneName;
    ghost var s := fields[..];
    n := 0;
    var i := 0;
    assert fields[..n] == Survivors(s, 0) by {
      NoneYet(s);
    }
    while i < fields.Length
      invariant 0 <= n <= i <= fields.Length
      invariant forall k :: i <= k < fields.Length ==> fields[k] == s[k]
      invariant fields[..n] == Survivors(s, i)
      invariant 0 < i < fields.Length ==> s[i - 1].name != s[i].name
    {
      var advance := Advance(fields, i);
      assert fields[i..i + advance] == s[i..i + advance];
      TheGroup(s, i, advance);
      n := KeepDominant(fields, i, advance, n, s);
      i := i + advance;
    }
  }

  /** Keeps what survives of one name. */
  method KeepDominant(fields: array<Candidate>, i: nat, advance: nat, n0: nat, ghost s: seq<Candidate>) returns (n: nat)
    requires n0 <= i && 0 < advance && i + advance <= fields.Length == |s|
    requires fields[i..i + advance] == s[i..i + advance] && OneName(fields[i..i + advance])
    requires forall k :: 0 <= k < |s| ==> (s[k].name == s[i].name <==> i <= k < i + advance)
    requires fields[..n0] == Survivors(s, i)
    modifies fields
    ensures n <= i + advance && fields[..n] == Survivors(s, i + advance)
    ensures forall k :: i + advance <= k < fields.Length ==> fields[k] == old(fields[k])
  {
    hide Survives, Survivors, OneName;
    n := n0;
    ghost var found, at := true, i;
    var group := fields[i..i + advance];
    if advance == 1 {
      Put(fields, n, fields[i]);
      n := n + 1;
    } else {
      var dominant, ok, where := DominantField(group);
      if ok {
        Put(fields, n, dominant);
        n := n + 1;
      }
      found, at := ok, i + where;
    }
    GroupSurvivor(s, i, advance, group, found, at);
  }

  /** A maximal run of one name has all candidates of that name. */
  lemma TheGroup(s: seq<Candidate>, i: nat, m: nat)
    requires IsSorted(CandidateLess, s) && 0 < m && i + m <= |s|
    requires forall k :: i <= k < i + m ==> s[k].name == s[i].name
    requires i > 0 ==> s[i - 1].name != s[i].name
    requires i + m < |s| ==> s[i + m].name != s[i].name
    ensures forall k :: 0 <= k < |s| ==> (s[k].name == s[i].name <==> i <= k < i + m)
    ensures OneName(s[i..i + m])
  {
    hide CandidateLess, IsSorted;
    forall k | 0 <= k < |s| && s[k].name == s[i].name
      ensures i <= k < i + m
    {
      if k < i {
        GroupsAreTogether(s, k, i - 1, i);
      } else if k >= i + m {
        GroupsAreTogether(s, i, i + m, k);
      }
    }
    forall j, k | i <= j <= k < i + m
      ensures |s[j].index| <= |s[k].index|
    {
      GroupsAreTogether(s, j, k, k);
    }
  }

  lemma GroupSurvivor(s: seq<Candidate>, i: nat, m: nat, group: seq<Candidate>, found: bool, at: nat)
    requires 0 < m && i + m <= |s|
    requires forall k :: 0 <= k < |s| ==> (s[k].name == s[i].name <==> i <= k < i + m)
    requires group == s[i..i + m]
    requires found ==> i <= at < i + m && (m == 1 || Survives(group, at - i))
    requires m == 1 ==> found
    requires m > 1 && !found ==> forall k :: !Survives(group, k)
    ensures Survivors(s, i + m) == Survivors(s, i) + if found then [s[at]] else []
  {
    forall k | i <= k < i + m
      ensures Survives(s, k) <==> found && k == at
    {
      SurvivesInGroup(s, i, m, k - i);
      if found && m > 1 && k != at {
        SurvivesInGroup(s, i, m, at - i);
        OnlyOneSurvives(s, at, k);
      }
    }
    SurvivorsOfGroup(s, i, m, found, at);
  }
}
