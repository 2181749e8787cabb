/**
 The search for a struct's fields, level by level, with a queue for the next
 level and counts of how often a struct was queued.
 */
module StructSearch {
  import opened Wrappers
  import opened DominantFields
  import opened StructFields
  import opened FieldNames

  datatype Queued = Queued(typ: nat, index: seq<nat>)

  /** A struct that was searched, the path to it, and whether its fields were recorded twice. */
  datatype Scanned = Scanned(typ: nat, index: seq<nat>, twice: bool)

  function Count(m: map<nat, nat>, t: nat): nat {
    if t in m then m[t] else 0
  }

  function Types(q: seq<Queued>): set<nat> {
    set i | 0 <= i < |q| :: q[i].typ
  }

  // ----- one struct -----

  function OneField(p: Program, t: nat, index: seq<nat>, twice: bool, i: nat): seq<Candidate> {
    match At(p, t, i)
    case Record(name, tagged) =>
      var c := Candidate(name, tagged, index + [i]);
      if twice then [c, c] else [c]
    case _ => []
  }

  function FieldsOf(p: Program, t: nat, index: seq<nat>, twice: bool, n: nat): seq<Candidate> {
    if n == 0 then [] else FieldsOf(p, t, index, twice, n - 1) + OneField(p, t, index, twice, n - 1)
  }

  /** `c` is field `i` of struct `t`, under the name it has by its tag and its flags. */
  ghost predicate OwnField(p: Program, t: nat, index: seq<nat>, i: nat, c: Candidate) {
    c.index == index + [i] && HasField(p, t, i) && Named(p, p.structs[t][i], c.name, c.tagged)
  }

  ghost predicate IsOwnField(p: Program, t: nat, index: seq<nat>, c: Candidate) {
    exists i: nat :: OwnField(p, t, index, i, c)
  }

  ghost predicate OwnBefore(p: Program, t: nat, index: seq<nat>, n: nat, c: Candidate) {
    exists i: nat :: i < n && OwnField(p, t, index, i, c)
  }

  lemma {:induction false} OwnFieldsBefore(p: Program, t: nat, index: seq<nat>, twice: bool, n: nat, c: Candidate)
    ensures c in FieldsOf(p, t, index, twice, n) <==> OwnBefore(p, t, index, n, c)
  {
    hide At, OwnField;
    if n > 0 {
      OwnFieldsBefore(p, t, index, twice, n - 1, c);
      OneFieldIsOwn(p, t, index, twice, n - 1, c);
    }
  }

  lemma OneFieldIsOwn(p: Program, t: nat, index: seq<nat>, twice: bool, i: nat, c: Candidate)
    ensures c in OneField(p, t, index, twice, i) <==> OwnField(p, t, index, i, c)
  {
    hide At, Named;
    AtIsTreated(p, t, i, c.name, c.tagged, 0);
  }

  /** What is recorded for a struct are its own fields. */
  lemma RecordedAreOwn(p: Program, t: nat, index: seq<nat>, twice: bool)
    requires t < |p.structs|
    ensures forall c :: c in FieldsOf(p, t, index, twice, |p.structs[t]|) <==> IsOwnField(p, t, index, c)
  {
    hide FieldsOf, Named;
    forall c
      ensures c in FieldsOf(p, t, index, twice, |p.structs[t]|) <==> IsOwnField(p, t, index, c)
    {
      OwnFieldsBefore(p, t, index, twice, |p.structs[t]|, c);
    }
  }

  function EdgeCount(p: Program, t: nat, u: nat, n: nat): nat {
    if n == 0 then 0
    else EdgeCount(p, t, u, n - 1) + if At(p, t, n - 1) == Explore(u) then 1 else 0
  }

  /** The queue has each struct that was counted once. */
  ghost predicate Queue(next: seq<Queued>, nextCount: map<nat, nat>) {
    && (forall i, j :: 0 <= i < j < |next| ==> next[i].typ != next[j].typ)
    && (forall u :: Count(nextCount, u) > 0 <==> u in Types(next))
  }

  /** What is queued leads on from where the search is. */
  ghost predicate LeadsOn(p: Program, f: Queued, q: Queued) {
    q.index != [] && Front(q.index) == f.index && At(p, f.typ, Last(q.index)) == Explore(q.typ)
  }

  lemma LeadsByOne(p: Program, f: Queued, i: nat)
    requires f.typ < |p.structs| && i < |p.structs[f.typ]|
    ensures At(p, f.typ, i) == Inspect(p, p.structs[f.typ][i])
    ensures At(p, f.typ, i).Explore? ==> LeadsOn(p, f, Queued(At(p, f.typ, i).id, f.index + [i]))
  {
    assert Front(f.index + [i]) == f.index;
  }

  /** One struct is searched: its own fields are recorded, under the names their tags and flags give them, and the
      structs it embeds are queued. */
  method ScanStruct(p: Program, f: Queued, twice: bool, fields: seq<Candidate>, next: seq<Queued>,
                    nextCount: map<nat, nat>)
    returns (fields': seq<Candidate>, next': seq<Queued>, nextCount': map<nat, nat>)
    requires f.typ < |p.structs| && Queue(next, nextCount)
    ensures fields' == fields + FieldsOf(p, f.typ, f.index, twice, |p.structs[f.typ]|)
    ensures fields <= fields'
    ensures forall c :: c in fields'[|fields|..] <==> IsOwnField(p, f.typ, f.index, c)
    ensures Queue(next', nextCount') && next <= next'
    ensures forall i :: |next| <= i < |next'| ==> LeadsOn(p, f, next'[i])
    ensures forall u :: Count(nextCount', u) == Count(nextCount, u) + EdgeCount(p, f.typ, u, |p.structs[f.typ]|)
  {
    hide Inspect, Queue, LeadsOn, At, IsOwnField;
    fields', next', nextCount' := fields, next, nextCount;
    for i := 0 to |p.structs[f.typ]|
      invariant fields' == fields + FieldsOf(p, f.typ, f.index, twice, i)
      invariant Queue(next', nextCount') && next <= next'
      invariant forall j :: |next| <= j < |next'| ==> LeadsOn(p, f, next'[j])
      invariant forall u :: Count(nextCount', u) == Count(nextCount, u) + EdgeCount(p, f.typ, u, i)
    {
      var index := f.index + [i];
      LeadsByOne(p, f, i);
      ghost var before, own := FieldsOf(p, f.typ, f.index, twice, i), OneField(p, f.typ, f.index, twice, i);
      assert (fields + before) + own == fields + (before + own);
      match Inspect(p, p.structs[f.typ][i]) {
        case Ignore =>
        case Record(name, tagged) =>
          fields' := fields' + [Candidate(name, tagged, index)];
          if twice {
            fields' := fields' + [fields'[|fields'| - 1]];
          }
        case Explore(t) =>
          nextCount', next' := Enqueue(t, index, next', nextCount');
      }
    }
    assert fields'[|fields|..] == FieldsOf(p, f.typ, f.index, twice, |p.structs[f.typ]|);
    RecordedAreOwn(p, f.typ, f.index, twice);
  }

  method Enqueue(t: nat, index: seq<nat>, next: seq<Queued>, nextCount: map<nat, nat>)
    returns (nextCount': map<nat, nat>, next': seq<Queued>)
    requires Queue(next, nextCount)
    ensures Queue(next', nextCount')
    ensures next' == next || next' == next + [Queued(t, index)]
    ensures nextCount' == nextCount[t := Count(nextCount, t) + 1]
  {
    nextCount', next' := nextCount[t := Count(nextCount, t) + 1], next;
    if nextCount'[t] == 1 {
      next' := next + [Queued(t, index)];
      assert t !in Types(next);
      assert Types(next') == Types(next) + {t} by {
        assert next'[|next|].typ == t;
        assert forall i :: 0 <= i < |next| ==> next'[i] == next[i];
      }
    }
  }

  // ----- all that was searched -----

  function FieldsOfAll(p: Program, scan: seq<Scanned>): seq<Candidate> {
    if scan == [] then []
    else
      var last := scan[|scan| - 1];
      FieldsOfAll(p, scan[..|scan| - 1]) + FieldsOf(p, last.typ, last.index, last.twice, Size(p, last.typ))
  }

  function Size(p: Program, t: nat): nat {
    if t < |p.structs| then |p.structs[t]| else 0
  }

  /** How many embedded fields lead to `u` from structs searched at level `k`. */
  function TotalEdges(p: Program, scan: seq<Scanned>, k: int, u: nat): nat {
    if scan == [] then 0
    else
      var last := scan[|scan| - 1];
      TotalEdges(p, scan[..|scan| - 1], k, u) + if |last.index| == k then EdgeCount(p, last.typ, u, Size(p, last.typ))
        else 0
  }

  /** `t` was searched, at a path no longer than `d`. */
  ghost predicate Seen(scan: seq<Scanned>, t: nat, d: nat) {
    exists j :: 0 <= j < |scan| && scan[j].typ == t && |scan[j].index| <= d
  }

  ghost predicate ScanOk(p: Program, root: nat, scan: seq<Scanned>) {
    && (forall j :: 0 <= j < |scan| ==> scan[j].typ < |p.structs| && Walk(p, root, scan[j].index) == Some(scan[j].typ))
    && (forall i, j :: 0 <= i < j < |scan| ==> scan[i].typ != scan[j].typ)
    && (forall j :: 0 <= j < |scan| ==> (scan[j].twice <==> TotalEdges(p, scan, |scan[j].index| - 1, scan[j].typ) > 1))
  }

  /** Every embedded field of a struct searched leads to a struct searched soon enough, or still queued: in what is
      left of the level being searched, or in the next. */
  ghost predicate Closed(p: Program, scan: seq<Scanned>, k: int, current: set<nat>, next: set<nat>) {
    forall j, i, u :: 0 <= j < |scan| && At(p, scan[j].typ, i) == Explore(u) ==>
      Accounted(scan, u, |scan[j].index|, k, current, next)
  }

  ghost predicate Accounted(scan: seq<Scanned>, u: nat, d: nat, k: int, current: set<nat>, next: set<nat>) {
    Seen(scan, u, d + 1) || (d == k - 1 && u in current) || (d == k && u in next)
  }

  // ----- the state of the search -----

  ghost predicate QueueOk(p: Program, root: nat, q: seq<Queued>, k: nat) {
    && (forall i :: 0 <= i < |q| ==>
        q[i].typ < |p.structs| && Walk(p, root, q[i].index) == Some(q[i].typ) && |q[i].index| == k)
  }

  ghost predicate Counted(p: Program, scan: seq<Scanned>, k: int, count: map<nat, nat>) {
    forall u :: Count(count, u) == TotalEdges(p, scan, k, u)
  }

  ghost predicate Visited(scan: seq<Scanned>, visited: set<nat>) {
    && (forall t :: t in visited ==> exists j :: 0 <= j < |scan| && scan[j].typ == t)
    && (forall j :: 0 <= j < |scan| ==> scan[j].typ in visited)
  }

  ghost predicate RootOk(scan: seq<Scanned>, root: nat, k: nat, current: set<nat>) {
    Seen(scan, root, 0) || (k == 0 && root in current)
  }

  ghost predicate UpTo(scan: seq<Scanned>, k: nat) {
    forall j :: 0 <= j < |scan| ==> |scan[j].index| <= k
  }

  /** At level `k`, with `rest` still to be searched and `next` queued. */
  ghost predicate State(p: Program, root: nat, k: nat, scan: seq<Scanned>, rest: seq<Queued>, count: map<nat, nat>,
                        next: seq<Queued>, nextCount: map<nat, nat>) {
    && ScanOk(p, root, scan) && UpTo(scan, k)
    && QueueOk(p, root, rest, k) && QueueOk(p, root, next, k + 1) && Queue(next, nextCount)
    && Closed(p, scan, k, Types(rest), Types(next)) && RootOk(scan, root, k, Types(rest))
    && Counted(p, scan, k - 1, count) && Counted(p, scan, k, nextCount)
  }

  lemma TotalOneMore(p: Program, scan: seq<Scanned>, x: Scanned, k: int, u: nat)
    ensures TotalEdges(p, scan + [x], k, u) ==
            TotalEdges(p, scan, k, u) + if |x.index| == k then EdgeCount(p, x.typ, u, Size(p, x.typ)) else 0
  {
    assert (scan + [x])[..|scan|] == scan;
  }

  lemma {:induction false} NoEdgesAbove(p: Program, scan: seq<Scanned>, k: int, u: nat)
    requires forall j :: 0 <= j < |scan| ==> |scan[j].index| != k
    ensures TotalEdges(p, scan, k, u) == 0
  {
    if scan != [] {
      NoEdgesAbove(p, scan[..|scan| - 1], k, u);
    }
  }

  lemma NothingCounted(p: Program, scan: seq<Scanned>, k: int)
    requires forall j :: 0 <= j < |scan| ==> |scan[j].index| != k
    ensures Counted(p, scan, k, map[])
  {
    hide TotalEdges;
    forall u
      ensures TotalEdges(p, scan, k, u) == 0
    {
      NoEdgesAbove(p, scan, k, u);
    }
  }

  lemma SeenStays(scan: seq<Scanned>, x: Scanned, t: nat, d: nat)
    requires Seen(scan, t, d)
    ensures Seen(scan + [x], t, d)
  {
    var j :| 0 <= j < |scan| && scan[j].typ == t && |scan[j].index| <= d;
    assert (scan + [x])[j] == scan[j];
  }

  lemma TypesOfRest(q: seq<Queued>)
    requires q != []
    ensures Types(q) == {q[0].typ} + Types(q[1..])
  {
    forall t
      ensures t in Types(q) <==> t in {q[0].typ} + Types(q[1..])
    {
      if t in Types(q) {
        var i :| 0 <= i < |q| && q[i].typ == t;
        assert i > 0 ==> q[1..][i - 1].typ == t;
      }
      if t in Types(q[1..]) {
        var i :| 0 <= i < |q| - 1 && q[1..][i].typ == t;
        assert q[i + 1].typ == t;
      }
    }
  }

  lemma QueueOkRest(p: Program, root: nat, q: seq<Queued>, k: nat)
    requires QueueOk(p, root, q, k) && q != []
    ensures QueueOk(p, root, q[1..], k)
  {
    hide Walk;
  }

  /** A struct that was visited is passed over. */
  lemma PassedOver(p: Program, root: nat, k: nat, scan: seq<Scanned>, rest: seq<Queued>, count: map<nat, nat>,
                   next: seq<Queued>, nextCount: map<nat, nat>)
    requires State(p, root, k, scan, rest, count, next, nextCount) && rest != []
    requires exists j :: 0 <= j < |scan| && scan[j].typ == rest[0].typ
    ensures State(p, root, k, scan, rest[1..], count, next, nextCount)
  {
    hide ScanOk, Queue, Counted, At, Walk;
    TypesOfRest(rest);
    QueueOkRest(p, root, rest, k);
    assert Seen(scan, rest[0].typ, k);
    assert k == 0 ==> Seen(scan, rest[0].typ, 0);
    forall j, i, u | 0 <= j < |scan| && At(p, scan[j].typ, i) == Explore(u)
      ensures Accounted(scan, u, |scan[j].index|, k, Types(rest[1..]), Types(next))
    {
      assert Accounted(scan, u, |scan[j].index|, k, Types(rest), Types(next));
    }
  }

  /** A struct that is searched. */
  lemma Searched(p: Program, root: nat, k: nat, scan: seq<Scanned>, rest: seq<Queued>, count: map<nat, nat>,
                 next: seq<Queued>, nextCount: map<nat, nat>, next': seq<Queued>, nextCount': map<nat, nat>)
    requires p.WellFormed() && State(p, root, k, scan, rest, count, next, nextCount) && rest != []
    requires forall j :: 0 <= j < |scan| ==> scan[j].typ != rest[0].typ
    requires Queue(next', nextCount') && next <= next'
    requires forall i :: |next| <= i < |next'| ==> LeadsOn(p, rest[0], next'[i])
    requires forall u ::
               Count(nextCount', u) == Count(nextCount, u) + EdgeCount(p, rest[0].typ, u, Size(p, rest[0].typ))
    ensures (var x := Scanned(rest[0].typ, rest[0].index, Count(count, rest[0].typ) > 1);
             State(p, root, k, scan + [x], rest[1..], count, next', nextCount'))
  {
    hide ScanOk, Queue, Closed, At, Walk, QueueOk, Counted, RootOk;
    var x := Scanned(rest[0].typ, rest[0].index, Count(count, rest[0].typ) > 1);
    QueueOkRest(p, root, rest, k);
    assert |x.index| == k && x.typ < |p.structs| && Walk(p, root, x.index) == Some(x.typ) by {
      assert QueueOk(p, root, rest, k);
      QueueOkFirst(p, root, rest, k);
    }
    ScanOkStays(p, root, k, scan, x, count);
    CountedStays(p, scan, k - 1, count, x);
    CountedMore(p, scan, k, nextCount, x, nextCount');
    LeadingOn(p, root, rest[0], next, next', k);
    ClosedStays(p, scan, k, x, rest, next, next', nextCount');
    RootStays(scan, root, k, x, rest);
  }

  lemma QueueOkFirst(p: Program, root: nat, q: seq<Queued>, k: nat)
    requires QueueOk(p, root, q, k) && q != []
    ensures |q[0].index| == k && q[0].typ < |p.structs| && Walk(p, root, q[0].index) == Some(q[0].typ)
  {
    hide Walk;
  }

  lemma ScanOkStays(p: Program, root: nat, k: nat, scan: seq<Scanned>, x: Scanned, count: map<nat, nat>)
    requires ScanOk(p, root, scan) && UpTo(scan, k) && Counted(p, scan, k - 1, count)
    requires |x.index| == k && x.typ < |p.structs| && Walk(p, root, x.index) == Some(x.typ)
    requires x.twice <==> Count(count, x.typ) > 1
    requires forall j :: 0 <= j < |scan| ==> scan[j].typ != x.typ
    ensures ScanOk(p, root, scan + [x])
  {
    hide Walk, At, TotalEdges;
    var scan' := scan + [x];
    forall j | 0 <= j < |scan'|
      ensures scan'[j].twice <==> TotalEdges(p, scan', |scan'[j].index| - 1, scan'[j].typ) > 1
    {
      TotalOneMore(p, scan, x, |scan'[j].index| - 1, scan'[j].typ);
    }
  }

  lemma CountedStays(p: Program, scan: seq<Scanned>, k: int, count: map<nat, nat>, x: Scanned)
    requires Counted(p, scan, k, count) && |x.index| != k
    ensures Counted(p, scan + [x], k, count)
  {
    hide TotalEdges;
    forall u
      ensures Count(count, u) == TotalEdges(p, scan + [x], k, u)
    {
      TotalOneMore(p, scan, x, k, u);
    }
  }

  lemma CountedMore(p: Program, scan: seq<Scanned>, k: int, count: map<nat, nat>, x: Scanned, count': map<nat, nat>)
    requires Counted(p, scan, k, count) && |x.index| == k
    requires forall u :: Count(count', u) == Count(count, u) + EdgeCount(p, x.typ, u, Size(p, x.typ))
    ensures Counted(p, scan + [x], k, count')
  {
    hide TotalEdges, EdgeCount;
    forall u
      ensures Count(count', u) == TotalEdges(p, scan + [x], k, u)
    {
      TotalOneMore(p, scan, x, k, u);
    }
  }

  lemma LeadingOn(p: Program, root: nat, f: Queued, next: seq<Queued>, next': seq<Queued>, k: nat)
    requires p.WellFormed() && QueueOk(p, root, next, k + 1) && next <= next'
    requires |f.index| == k && Walk(p, root, f.index) == Some(f.typ)
    requires forall i :: |next| <= i < |next'| ==> LeadsOn(p, f, next'[i])
    ensures QueueOk(p, root, next', k + 1)
  {
    forall i | 0 <= i < |next'|
      ensures next'[i].typ < |p.structs| && Walk(p, root, next'[i].index) == Some(next'[i].typ) &&
              |next'[i].index| == k + 1
    {
      if i < |next| {
        assert next'[i] == next[i];
      } else {
        LeadsOneOn(p, root, f, next'[i]);
      }
    }
  }

  lemma LeadsOneOn(p: Program, root: nat, f: Queued, q: Queued)
    requires p.WellFormed() && Walk(p, root, f.index) == Some(f.typ) && LeadsOn(p, f, q)
    ensures q.typ < |p.structs| && Walk(p, root, q.index) == Some(q.typ) && |q.index| == |f.index| + 1
  {
    WalkOneMore(p, root, f.index, f.typ, Last(q.index));
    assert q.index == f.index + [Last(q.index)];
  }

  lemma {:induction false} EdgeIsCounted(p: Program, t: nat, u: nat, n: nat, i: nat)
    requires i < n && At(p, t, i) == Explore(u)
    ensures EdgeCount(p, t, u, n) > 0
  {
    if i < n - 1 {
      EdgeIsCounted(p, t, u, n - 1, i);
    }
  }

  lemma ClosedStays(p: Program, scan: seq<Scanned>, k: nat, x: Scanned, rest: seq<Queued>, next: seq<Queued>,
                    next': seq<Queued>,
                    nextCount': map<nat, nat>)
    requires Closed(p, scan, k, Types(rest), Types(next)) && rest != [] && x.typ == rest[0].typ && |x.index| == k
    requires Queue(next', nextCount') && next <= next' && Counted(p, scan + [x], k, nextCount')
    ensures Closed(p, scan + [x], k, Types(rest[1..]), Types(next'))
  {
    hide At, TotalEdges;
    var scan' := scan + [x];
    TypesOfRest(rest);
    assert scan'[|scan|] == x;
    assert Seen(scan', x.typ, k);
    assert Types(next) <= Types(next') by {
      assert forall i :: 0 <= i < |next| ==> next'[i] == next[i];
    }
    forall j, i, u | 0 <= j < |scan'| && At(p, scan'[j].typ, i) == Explore(u)
      ensures Accounted(scan', u, |scan'[j].index|, k, Types(rest[1..]), Types(next'))
    {
      if j == |scan| {
        ExploreIsInside(p, x.typ, i);
        EdgeIsCounted(p, x.typ, u, Size(p, x.typ), i);
        TotalOneMore(p, scan, x, k, u);
      } else {
        assert Accounted(scan, u, |scan[j].index|, k, Types(rest), Types(next));
        if Seen(scan, u, |scan[j].index| + 1) {
          SeenStays(scan, x, u, |scan[j].index| + 1);
        }
      }
    }
  }

  lemma ExploreIsInside(p: Program, t: nat, i: nat)
    requires At(p, t, i).Explore?
    ensures i < Size(p, t)
  {
  }

  lemma RootStays(scan: seq<Scanned>, root: nat, k: nat, x: Scanned, rest: seq<Queued>)
    requires RootOk(scan, root, k, Types(rest)) && rest != [] && x.typ == rest[0].typ && |x.index| == k
    ensures RootOk(scan + [x], root, k, Types(rest[1..]))
  {
    TypesOfRest(rest);
    if Seen(scan, root, 0) {
      SeenStays(scan, x, root, 0);
    }
    assert (scan + [x])[|scan|] == x;
  }

  /** The next level becomes the current one. */
  lemma NextLevel(p: Program, root: nat, k: nat, scan: seq<Scanned>, count: map<nat, nat>, next: seq<Queued>,
                  nextCount: map<nat, nat>)
    requires State(p, root, k, scan, [], count, next, nextCount)
    ensures State(p, root, k + 1, scan, next, nextCount, [], map[])
  {
    hide Walk, At, TotalEdges;
    assert Counted(p, scan, k + 1, map[]) by {
      NothingCounted(p, scan, k + 1);
    }
    forall j, i, u | 0 <= j < |scan| && At(p, scan[j].typ, i) == Explore(u)
      ensures Accounted(scan, u, |scan[j].index|, k + 1, Types(next), Types([]))
    {
      assert Accounted(scan, u, |scan[j].index|, k, Types([]), Types(next));
    }
  }

  // ----- the search -----

  method SearchLevel(p: Program, root: nat, ghost k: nat, current: seq<Queued>, count: map<nat, nat>,
                     visited: set<nat>, fields: seq<Candidate>, ghost scan: seq<Scanned>)
    returns (next: seq<Queued>, nextCount: map<nat, nat>, visited': set<nat>, fields': seq<Candidate>,
             ghost scan': seq<Scanned>)
    requires p.WellFormed() && State(p, root, k, scan, current, count, [], map[])
    requires Visited(scan, visited) && fields == FieldsOfAll(p, scan)
    ensures State(p, root, k, scan', [], count, next, nextCount)
    ensures Visited(scan', visited') && fields' == FieldsOfAll(p, scan')
    ensures visited <= visited' && (visited' == visited ==> next == [])
  {
    hide State, TotalEdges, EdgeCount, FieldsOf, At;
    next, nextCount, visited', fields', scan' := [], map[], visited, fields, scan;
    assert current[0..] == current;
    for m := 0 to |current|
      invariant State(p, root, k, scan', current[m..], count, next, nextCount)
      invariant Visited(scan', visited') && fields' == FieldsOfAll(p, scan')
      invariant visited <= visited' && (visited' == visited ==> next == [])
    {
      var f := current[m];
      assert current[m..][0] == f && current[m..][1..] == current[m + 1..];
      if f.typ in visited' {
        PassedOver(p, root, k, scan', current[m..], count, next, nextCount);
      } else {
        visited' := visited' + {f.typ};
        InRange(p, root, k, scan', current[m..], count, next, nextCount);
        ghost var before, countBefore := next, nextCount;
        fields', next, nextCount := ScanStruct(p, f, Count(count, f.typ) > 1, fields', next, nextCount);
        Searched(p, root, k, scan', current[m..], count, before, countBefore, next, nextCount);
        ghost var x := Scanned(f.typ, f.index, Count(count, f.typ) > 1);
        assert (scan' + [x])[..|scan'|] == scan';
        scan' := scan' + [x];
        assert scan'[|scan'| - 1] == x;
      }
    }
    assert current[|current|..] == [];
  }

  lemma InRange(p: Program, root: nat, k: nat, scan: seq<Scanned>, rest: seq<Queued>, count: map<nat, nat>,
                next: seq<Queued>, nextCount: map<nat, nat>)
    requires State(p, root, k, scan, rest, count, next, nextCount) && rest != []
    ensures rest[0].typ < |p.structs| && Queue(next, nextCount)
  {
  }

  ghost function Unseen(p: Program, visited: set<nat>): set<nat> {
    Below(|p.structs|) - visited
  }

  ghost function Below(n: nat): (r: set<nat>)
    ensures forall t: nat :: t in r <==> t < n
  {
    if n == 0 then {} else Below(n - 1) + {n - 1}
  }

  /** Every embedded field of a struct searched leads to a struct searched, at most one level deeper. */
  ghost predicate Finished(p: Program, scan: seq<Scanned>) {
    forall j, i, u :: 0 <= j < |scan| && At(p, scan[j].typ, i) == Explore(u) ==> Seen(scan, u, |scan[j].index| + 1)
  }

  lemma Start(p: Program, root: nat)
    requires root < |p.structs|
    ensures State(p, root, 0, [], [Queued(root, [])], map[], [], map[])
    ensures FieldsOfAll(p, []) == []
  {
    assert [Queued(root, [])][0].typ == root;
  }

  lemma Done(p: Program, root: nat, k: nat, scan: seq<Scanned>, count: map<nat, nat>)
    requires State(p, root, k, scan, [], count, [], map[])
    ensures ScanOk(p, root, scan) && Seen(scan, root, 0) && Finished(p, scan)
  {
    hide Walk, At, TotalEdges;
    forall j, i, u | 0 <= j < |scan| && At(p, scan[j].typ, i) == Explore(u)
      ensures Seen(scan, u, |scan[j].index| + 1)
    {
      assert Accounted(scan, u, |scan[j].index|, k, Types([]), Types([]));
    }
  }

  lemma StructsVisited(p: Program, root: nat, k: nat, scan: seq<Scanned>, visited: set<nat>, count: map<nat, nat>,
                       next: seq<Queued>, nextCount: map<nat, nat>)
    requires State(p, root, k, scan, [], count, next, nextCount) && Visited(scan, visited)
    ensures forall t :: t in visited ==> t < |p.structs|
  {
    hide Walk, At, TotalEdges;
  }

  method CollectFields(p: Program, root: nat) returns (fields: seq<Candidate>, ghost scan: seq<Scanned>)
    requires p.WellFormed() && root < |p.structs|
    ensures fields == FieldsOfAll(p, scan) && ScanOk(p, root, scan) && Seen(scan, root, 0)
    ensures Finished(p, scan)
  {
    hide State, FieldsOfAll;
    var next, nextCount := [Queued(root, [])], map[];
    var visited: set<nat> := {};
    ghost var k := 0;
    fields, scan := [], [];
    Start(p, root);
    while |next| > 0
      invariant State(p, root, k, scan, next, nextCount, [], map[])
      invariant Visited(scan, visited) && fields == FieldsOfAll(p, scan)
      decreases Unseen(p, visited), |next|
    {
      var current, count := next, nextCount;
      ghost var before := visited;
      next, nextCount, visited, fields, scan := SearchLevel(p, root, k, current, count, visited, fields, scan);
      StructsVisited(p, root, k, scan, visited, count, next, nextCount);
      assert before != visited ==> Unseen(p, visited) < Unseen(p, before) by {
        if t :| t in visited && t !in before {
          assert t in Unseen(p, before) && t !in Unseen(p, visited);
        }
      }
      NextLevel(p, root, k, scan, count, next, nextCount);
      k := k + 1;
    }
    Done(p, root, k, scan, nextCount);
  }
}
