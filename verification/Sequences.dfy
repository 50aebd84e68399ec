/** Cutting a sequence into pieces of a given size, and gluing pieces together. */
module Sequences {

  function Flatten<T>(parts: seq<seq<T>>): seq<T> {
    if parts == [] then [] else parts[0] + Flatten(parts[1..])
  }

  function CeilDiv(n: nat, size: nat): nat
    requires size > 0
  {
    (n + size - 1) / size
  }

  /** Pieces of the given size, the last one possibly shorter. */
  function Pieces<T>(s: seq<T>, size: nat): (parts: seq<seq<T>>)
    requires size > 0
  {
    if |s| <= size then (if s == [] then [] else [s]) else [s[..size]] + Pieces(s[size..], size)
  }

  lemma {:induction false} FlattenPieces<T>(s: seq<T>, size: nat)
    requires size > 0
    ensures Flatten(Pieces(s, size)) == s
  {
    if |s| > size {
      FlattenPieces(s[size..], size);
      assert Pieces(s, size)[1..] == Pieces(s[size..], size);
    } else if s != [] {
      assert Pieces(s, size)[1..] == [];
    }
  }

  lemma {:induction false} FlattenAppend<T>(parts: seq<seq<T>>, last: seq<T>)
    ensures Flatten(parts + [last]) == Flatten(parts) + last
  {
    if parts == [] {
      assert (parts + [last])[1..] == [];
    } else {
      FlattenAppend(parts[1..], last);
      assert (parts + [last])[1..] == parts[1..] + [last];
    }
  }

  lemma {:induction false} FlattenConcat<T>(a: seq<seq<T>>, b: seq<seq<T>>)
    ensures Flatten(a + b) == Flatten(a) + Flatten(b)
  {
    if a == [] {
      assert a + b == b;
    } else {
      assert (a + b)[1..] == a[1..] + b;
      FlattenConcat(a[1..], b);
    }
  }

  lemma FlattenTwo<T>(a: seq<T>, b: seq<T>)
    ensures Flatten([a, b]) == a + b
  {
    assert [a, b][1..] == [b];
    assert Flatten([b]) == b;
  }

  lemma FlattenFour<T>(a: seq<T>, b: seq<T>, c: seq<T>, d: seq<T>)
    ensures Flatten([a, b, c, d]) == a + b + c + d
  {
    assert [a, b, c, d][1..] == [b, c, d] && [b, c, d][1..] == [c, d] && [c, d][1..] == [d];
    assert Flatten([d]) == d;
    assert Flatten([c, d]) == c + d;
  }

  lemma CeilDivStep(n: nat, size: nat)
    requires 0 < size < n
    ensures CeilDiv(n, size) == 1 + CeilDiv(n - size, size)
  {
    assert (n + size - 1) == (n - size + size - 1) + size;
    DivAdd(n - size + size - 1, size);
  }

  lemma DivAdd(a: nat, size: nat)
    requires size > 0
    ensures (a + size) / size == a / size + 1
  {
    assert a == a / size * size + a % size;
    assert a + size == (a / size + 1) * size + a % size;
    DivUnique(a + size, size, a / size + 1, a % size);
  }

  lemma {:induction false} MulGap(a: nat, b: nat, size: nat)
    requires a < b
    ensures a * size + size <= b * size
    decreases b
  {
    assert b * size == (b - 1) * size + size;
    if a < b - 1 { MulGap(a, b - 1, size); }
  }

  lemma DivUnique(n: nat, size: nat, q: nat, r: nat)
    requires size > 0 && r < size && n == q * size + r
    ensures n / size == q && n % size == r
  {
    var q', r' := n / size, n % size;
    assert q' * size + r' == n;
    if q' < q { MulGap(q', q, size); } else if q' > q { MulGap(q, q', size); }
  }

  /** How many pieces there are, and how long each is. */
  lemma {:induction false} PiecesShape<T>(s: seq<T>, size: nat, i: nat)
    requires size > 0
    ensures |Pieces(s, size)| == CeilDiv(|s|, size)
    ensures i < |Pieces(s, size)| - 1 ==> |Pieces(s, size)[i]| == size
    ensures s != [] ==> |Pieces(s, size)| > 0 && (|Pieces(s, size)| - 1) * size < |s|
    ensures s != [] && i == |Pieces(s, size)| - 1 ==> |Pieces(s, size)[i]| == |s| - i * size
    decreases |s|
  {
    if s == [] {
      DivUnique(size - 1, size, 0, size - 1);
    } else if |s| <= size {
      DivUnique(|s| + size - 1, size, 1, |s| - 1);
    } else {
      CeilDivStep(|s|, size);
      PiecesShape(s[size..], size, if i == 0 then 0 else i - 1);
      var n := |Pieces(s, size)|;
      assert (n - 1) * size == (n - 2) * size + size;
    }
  }

  lemma {:induction false} PiecesNonEmpty<T>(s: seq<T>, size: nat)
    requires size > 0
    ensures forall i | 0 <= i < |Pieces(s, size)| :: 0 < |Pieces(s, size)[i]| <= size
    decreases |s|
  {
    if |s| > size { PiecesNonEmpty(s[size..], size); }
  }

  /** A sequence of n * size elements falls into n pieces of exactly that size. */
  lemma {:induction false} EvenPieces<T>(s: seq<T>, size: nat, n: nat)
    requires size > 0 && |s| == n * size
    ensures |Pieces(s, size)| == n && forall i | 0 <= i < n :: |Pieces(s, size)[i]| == size
    decreases n
  {
    if n > 0 {
      assert n * size == (n - 1) * size + size;
      if n == 1 {
      } else {
        assert (n - 1) * size >= size;
        EvenPieces(s[size..], size, n - 1);
      }
    }
  }

  /** The function applied to every element. */
  function Mapped<T, U>(f: T -> U, s: seq<T>): (r: seq<U>)
    ensures |r| == |s|
  {
    seq(|s|, i requires 0 <= i < |s| => f(s[i]))
  }

  ghost predicate Distinct<T>(xs: seq<T>) {
    forall i, j | 0 <= i < j < |xs| :: xs[i] != xs[j]
  }

  function Sum(ws: seq<nat>): nat {
    if ws == [] then 0 else Sum(ws[..|ws| - 1]) + ws[|ws| - 1]
  }

  /** Where each of n pieces of equal size lies. */
  lemma {:induction false} EvenPieceAt<T>(s: seq<T>, size: nat, n: nat, j: nat)
    requires size > 0 && |s| == n * size && j < n
    ensures j * size + size <= |s| && |Pieces(s, size)| == n && Pieces(s, size)[j] == s[j * size..j * size + size]
    decreases n
  {
    EvenPieces(s, size, n);
    MulGap(j, n, size);
    if n > 1 {
      assert n * size == (n - 1) * size + size;
      MulGap(0, n - 1, size);
      if j > 0 {
        EvenPieceAt(s[size..], size, n - 1, j - 1);
        assert j * size == (j - 1) * size + size;
        assert s[size..][(j - 1) * size..(j - 1) * size + size] == s[j * size..j * size + size];
      }
    }
  }
}
