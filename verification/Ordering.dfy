/**
 Dictionary order on sequences of numbers and on strings, and sorting by a
 comparison, which stands for the library's sort.
 */
module Ordering {

  function LexLess(a: seq<int>, b: seq<int>): bool {
    if b == [] then false
    else if a == [] then true
    else if a[0] != b[0] then a[0] < b[0]
    else LexLess(a[1..], b[1..])
  }

  lemma {:induction false} LexTotal(a: seq<int>, b: seq<int>)
    ensures LexLess(a, b) || LexLess(b, a) || a == b
  {
    if a != [] && b != [] && a[0] == b[0] {
      LexTotal(a[1..], b[1..]);
      if a[1..] == b[1..] {
        assert a == [a[0]] + a[1..] && b == [b[0]] + b[1..];
      }
    }
  }

  lemma {:induction false} LexIrreflexive(a: seq<int>)
    ensures !LexLess(a, a)
  {
    if a != [] {
      LexIrreflexive(a[1..]);
    }
  }

  lemma {:induction false} LexTransitive(a: seq<int>, b: seq<int>, c: seq<int>)
    requires LexLess(a, b) && LexLess(b, c)
    ensures LexLess(a, c)
  {
    if a != [] && a[0] == b[0] == c[0] {
      LexTransitive(a[1..], b[1..], c[1..]);
    }
  }

  function Codes(s: string): seq<int> {
    seq(|s|, i requires 0 <= i < |s| => s[i] as int)
  }

  lemma CodesDiffer(a: string, b: string)
    requires Codes(a) == Codes(b)
    ensures a == b
  {
    assert |a| == |Codes(a)| == |b|;
    forall i | 0 <= i < |a|
      ensures a[i] == b[i]
    {
      assert a[i] as int == Codes(a)[i] == Codes(b)[i] == b[i] as int;
    }
  }

  function StringLess(a: string, b: string): bool {
    LexLess(Codes(a), Codes(b))
  }

  lemma StringTotal(a: string, b: string)
    ensures StringLess(a, b) || StringLess(b, a) || a == b
    ensures !(StringLess(a, b) && StringLess(b, a)) && !StringLess(a, a)
  {
    LexTotal(Codes(a), Codes(b));
    LexIrreflexive(Codes(a));
    if Codes(a) == Codes(b) {
      CodesDiffer(a, b);
    }
    if StringLess(a, b) && StringLess(b, a) {
      LexTransitive(Codes(a), Codes(b), Codes(a));
    }
  }

  lemma StringTransitive(a: string, b: string, c: string)
    requires StringLess(a, b) && StringLess(b, c)
    ensures StringLess(a, c)
  {
    LexTransitive(Codes(a), Codes(b), Codes(c));
  }

  /** A comparison by which things can be sorted: "not after" is a total preorder. */
  ghost predicate Sortable<T(!new)>(less: (T, T) -> bool) {
    && (forall a, b :: less(a, b) ==> !less(b, a))
    && (forall a, b, c :: !less(b, a) && !less(c, b) ==> !less(c, a))
  }

  ghost predicate IsSorted<T(!new)>(less: (T, T) -> bool, s: seq<T>) {
    forall i, j :: 0 <= i < j < |s| ==> !less(s[j], s[i])
  }

  lemma InsertedIsSorted<T(!new)>(less: (T, T) -> bool, s: seq<T>, x: T, i: nat)
    requires Sortable(less) && IsSorted(less, s) && i <= |s|
    requires i > 0 ==> !less(x, s[i - 1])
    requires i < |s| ==> less(x, s[i])
    ensures IsSorted(less, s[..i] + [x] + s[i..])
  {
    var r := s[..i] + [x] + s[i..];
    forall j, k | 0 <= j < k < |r|
      ensures !less(r[k], r[j])
    {
      if k < i {
        assert r[j] == s[j] && r[k] == s[k];
      } else if k == i {
        assert j == i - 1 || !less(s[i - 1], s[j]);
      } else if j > i {
        assert r[j] == s[j - 1] && r[k] == s[k - 1];
      } else if j == i {
        assert k - 1 == i || !less(s[k - 1], s[i]);
      } else {
        assert r[j] == s[j] && r[k] == s[k - 1];
      }
    }
  }

  /** Everything in its place: `s` with `x` put after what it does not precede. */
  method Insert<T(!new)>(less: (T, T) -> bool, s: seq<T>, x: T) returns (r: seq<T>)
    requires Sortable(less) && IsSorted(less, s)
    ensures IsSorted(less, r) && multiset(r) == multiset(s) + multiset{x}
  {
    hide Sortable, IsSorted;
    var i := |s|;
    while i > 0 && less(x, s[i - 1])
      invariant 0 <= i <= |s|
      invariant i < |s| ==> less(x, s[i])
    {
      i := i - 1;
    }
    InsertedIsSorted(less, s, x, i);
    r := s[..i] + [x] + s[i..];
    assert s == s[..i] + s[i..];
  }

  method Sort<T(!new)>(less: (T, T) -> bool, s: seq<T>) returns (r: seq<T>)
    requires Sortable(less)
    ensures IsSorted(less, r) && multiset(r) == multiset(s)
  {
    r := [];
    for i := 0 to |s|
      invariant IsSorted(less, r) && multiset(r) == multiset(s[..i])
    {
      r := Insert(less, r, s[i]);
      assert s[..i + 1] == s[..i] + [s[i]];
    }
    assert s[..|s|] == s;
  }
}
