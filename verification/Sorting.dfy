/** Stable insertion sort by any strict order. */
module Sorting {
  type Before<!T> = (T, T) -> bool

  function Insert<T>(x: T, sorted: seq<T>, before: Before<T>): (r: seq<T>)
    ensures |r| == |sorted| + 1
  {
    if sorted == [] then [x]
    else if before(x, sorted[0]) then [x] + sorted
    else [sorted[0]] + Insert(x, sorted[1..], before)
  }

  function Sort<T>(s: seq<T>, before: Before<T>): (r: seq<T>)
    ensures |r| == |s|
  {
    if s == [] then [] else Insert(s[|s| - 1], Sort(s[..|s| - 1], before), before)
  }

  lemma FirstApart<T>(s: seq<T>)
    requires s != []
    ensures multiset(s) == multiset(s[1..]) + multiset{s[0]}
  {
    assert s == [s[0]] + s[1..];
  }

  lemma LastApart<T>(s: seq<T>)
    requires s != []
    ensures multiset(s) == multiset(s[..|s| - 1]) + multiset{s[|s| - 1]}
  {
    assert s == s[..|s| - 1] + [s[|s| - 1]];
  }

  lemma {:induction false} InsertPermutes<T>(x: T, s: seq<T>, before: Before<T>)
    ensures multiset(Insert(x, s, before)) == multiset(s) + multiset{x}
  {
    if s != [] && !before(x, s[0]) {
      InsertPermutes(x, s[1..], before);
      FirstApart(s);
    }
  }

  lemma {:induction false} SortPermutes<T>(s: seq<T>, before: Before<T>)
    ensures multiset(Sort(s, before)) == multiset(s)
  {
    if s != [] {
      var n := |s| - 1;
      SortPermutes(s[..n], before);
      InsertPermutes(s[n], Sort(s[..n], before), before);
      LastApart(s);
    }
  }

  ghost predicate StrictOrder<T(!new)>(before: Before<T>) {
    && (forall a, b | before(a, b) :: !before(b, a))
    && (forall a, b, c | before(a, b) && before(b, c) :: before(a, c))
  }

  /** Nothing comes before what stands in front of it. */
  ghost predicate Sorted<T>(s: seq<T>, before: Before<T>) {
    forall i, j | 0 <= i < j < |s| :: !before(s[j], s[i])
  }

  lemma {:induction false} InsertSorted<T(!new)>(x: T, s: seq<T>, before: Before<T>)
    requires StrictOrder(before) && Sorted(s, before)
    ensures Sorted(Insert(x, s, before), before)
  {
    if s != [] && !before(x, s[0]) {
      var rest := s[1..];
      InsertSorted(x, rest, before);
      InsertPermutes(x, rest, before);
      var r := Insert(x, rest, before);
      forall i | 0 <= i < |r| ensures !before(r[i], s[0]) {
        assert r[i] in multiset(r);
        assert r[i] == x || r[i] in rest;
      }
    }
  }

  lemma {:induction false} SortSorted<T(!new)>(s: seq<T>, before: Before<T>)
    requires StrictOrder(before)
    ensures Sorted(Sort(s, before), before)
  {
    if s != [] {
      var n := |s| - 1;
      SortSorted(s[..n], before);
      InsertSorted(s[n], Sort(s[..n], before), before);
    }
  }
}
