/**
  Fields of characteristic two, as records of operations, and polynomials over them: a polynomial
  has no more roots than coefficients allow, and through any points there is an interpolating one.
*/
module Fields {
  import opened Sequences
  import opened LinearMaps


  datatype Field<!T> = Field(zero: T, one: T, add: (T, T) -> T, mul: (T, T) -> T, inverse: T -> T)

  /** Names the elements at which a law is to be used, so that no law is instantiated by accident. */
  ghost predicate At3<T(!new)>(a: T, b: T, c: T) { true }

  ghost predicate AdditionLaws<T(!new)>(f: Field<T>) {
    && (forall a :: f.add(f.zero, a) == a)
    && (forall a :: f.add(a, a) == f.zero)
    && (forall a, b {:trigger At(a, b)} :: At(a, b) ==> f.add(a, b) == f.add(b, a))
    && (forall a, b, c {:trigger At3(a, b, c)} :: At3(a, b, c) ==> f.add(f.add(a, b), c) == f.add(a, f.add(b, c)))
  }

  ghost predicate MultiplicationLaws<T(!new)>(f: Field<T>) {
    && (forall a :: f.mul(f.one, a) == a)
    && (forall a :: a != f.zero ==> f.mul(a, f.inverse(a)) == f.one)
    && (forall a, b {:trigger At(a, b)} :: At(a, b) ==> f.mul(a, b) == f.mul(b, a))
    && (forall a, b, c {:trigger At3(a, b, c)} :: At3(a, b, c) ==> f.mul(f.mul(a, b), c) == f.mul(a, f.mul(b, c)))
  }

  ghost predicate Distributes<T(!new)>(f: Field<T>) {
    forall a, b, c {:trigger At3(a, b, c)} :: At3(a, b, c) ==>
      f.mul(a, f.add(b, c)) == f.add(f.mul(a, b), f.mul(a, c))
  }

  ghost predicate IsField<T(!new)>(f: Field<T>) {
    f.zero != f.one && AdditionLaws(f) && MultiplicationLaws(f) && Distributes(f)
  }

  // ---------- consequences of the laws ----------

  lemma Laws<T(!new)>(f: Field<T>, a: T, b: T, c: T)
    requires IsField(f)
    ensures f.add(a, b) == f.add(b, a) && f.mul(a, b) == f.mul(b, a)
    ensures f.add(f.add(a, b), c) == f.add(a, f.add(b, c))
    ensures f.mul(f.mul(a, b), c) == f.mul(a, f.mul(b, c))
    ensures f.mul(a, f.add(b, c)) == f.add(f.mul(a, b), f.mul(a, c))
  {
    assert At(a, b) && At3(a, b, c);
  }

  lemma Exchange<T(!new)>(f: Field<T>, a: T, b: T, c: T, d: T)
    requires IsField(f)
    ensures f.add(f.add(a, b), f.add(c, d)) == f.add(f.add(a, c), f.add(b, d))
  {
    Laws(f, a, b, f.add(c, d));
    Laws(f, b, c, d);
    Laws(f, c, b, d);
    Laws(f, a, c, f.add(b, d));
  }

  lemma ZeroLaws<T(!new)>(f: Field<T>, a: T)
    requires IsField(f)
    ensures f.add(a, f.zero) == a
    ensures f.mul(a, f.zero) == f.zero && f.mul(f.zero, a) == f.zero
  {
    Laws(f, a, f.zero, f.zero);
  }

  /** In characteristic two a sum vanishes exactly when its terms agree. */
  lemma AddCancel<T(!new)>(f: Field<T>, a: T, b: T)
    requires IsField(f)
    ensures f.add(a, b) == f.zero <==> a == b
    ensures f.add(a, f.add(a, b)) == b
  {
    Laws(f, a, a, b);
    ZeroLaws(f, a);
  }

  lemma NoZeroDivisors<T(!new)>(f: Field<T>, a: T, b: T)
    requires IsField(f) && f.mul(a, b) == f.zero && a != f.zero
    ensures b == f.zero
  {
    Laws(f, f.inverse(a), a, b);
    ZeroLaws(f, f.inverse(a));
  }

  // ---------- polynomials, lowest coefficient first ----------

  function Eval<T>(f: Field<T>, p: seq<T>, x: T): T {
    if p == [] then f.zero else f.add(p[0], f.mul(x, Eval(f, p[1..], x)))
  }

  function PolyAdd<T>(f: Field<T>, p: seq<T>, q: seq<T>): (r: seq<T>)
    ensures |r| == if |p| < |q| then |q| else |p|
  {
    if p == [] then q else if q == [] then p else [f.add(p[0], q[0])] + PolyAdd(f, p[1..], q[1..])
  }

  function Scale<T>(f: Field<T>, c: T, p: seq<T>): (r: seq<T>)
    ensures |r| == |p|
  {
    if p == [] then [] else [f.mul(c, p[0])] + Scale(f, c, p[1..])
  }

  /** (x - a) p */
  function MulLinear<T>(f: Field<T>, a: T, p: seq<T>): (r: seq<T>)
    ensures |r| == |p| + 1
  {
    PolyAdd(f, [f.zero] + p, Scale(f, a, p))
  }

  /** The quotient of p - p(a) by x - a. */
  function Quotient<T>(f: Field<T>, p: seq<T>, a: T): (r: seq<T>)
    ensures |r| == if p == [] then 0 else |p| - 1
  {
    if |p| <= 1 then [] else [Eval(f, p[1..], a)] + Quotient(f, p[1..], a)
  }

  lemma {:induction false} EvalPolyAdd<T(!new)>(f: Field<T>, p: seq<T>, q: seq<T>, x: T)
    requires IsField(f)
    ensures Eval(f, PolyAdd(f, p, q), x) == f.add(Eval(f, p, x), Eval(f, q, x))
  {
    if p == [] {
    } else if q == [] {
      ZeroLaws(f, Eval(f, p, x));
    } else {
      var s, t := Eval(f, p[1..], x), Eval(f, q[1..], x);
      EvalPolyAdd(f, p[1..], q[1..], x);
      Laws(f, x, s, t);
      Exchange(f, p[0], q[0], f.mul(x, s), f.mul(x, t));
    }
  }

  lemma {:induction false} EvalScale<T(!new)>(f: Field<T>, c: T, p: seq<T>, x: T)
    requires IsField(f)
    ensures Eval(f, Scale(f, c, p), x) == f.mul(c, Eval(f, p, x))
  {
    if p == [] {
      ZeroLaws(f, c);
    } else {
      var s := Eval(f, p[1..], x);
      EvalScale(f, c, p[1..], x);
      Laws(f, c, p[0], f.mul(x, s));
      Laws(f, c, x, s);
      Laws(f, x, c, s);
    }
  }

  lemma EvalMulLinear<T(!new)>(f: Field<T>, a: T, p: seq<T>, x: T)
    requires IsField(f)
    ensures Eval(f, MulLinear(f, a, p), x) == f.mul(f.add(x, a), Eval(f, p, x))
  {
    var e := Eval(f, p, x);
    EvalPolyAdd(f, [f.zero] + p, Scale(f, a, p), x);
    EvalScale(f, a, p, x);
    assert ([f.zero] + p)[1..] == p;
    Laws(f, e, x, a);
    Laws(f, e, f.add(x, a), x);
    Laws(f, e, a, x);
  }

  lemma {:induction false} EvalQuotient<T(!new)>(f: Field<T>, p: seq<T>, a: T, x: T)
    requires IsField(f)
    ensures f.add(Eval(f, p, x), Eval(f, p, a)) == f.mul(f.add(x, a), Eval(f, Quotient(f, p, a), x))
  {
    if |p| <= 1 {
      ZeroLaws(f, f.add(x, a));
      ZeroLaws(f, x);
      ZeroLaws(f, a);
    } else {
      var r := p[1..];
      EvalQuotient(f, r, a, x);
      assert Quotient(f, p, a)[1..] == Quotient(f, r, a);
      FactorStep(f, p[0], x, a, Eval(f, r, x), Eval(f, r, a), Eval(f, Quotient(f, r, a), x));
    }
  }

  lemma FactorStep<T(!new)>(f: Field<T>, c: T, x: T, a: T, rx: T, ra: T, q: T)
    requires IsField(f) && f.add(rx, ra) == f.mul(f.add(x, a), q)
    ensures f.add(f.add(c, f.mul(x, rx)), f.add(c, f.mul(a, ra))) == f.mul(f.add(x, a), f.add(ra, f.mul(x, q)))
  {
    var d := f.add(x, a);
    Exchange(f, c, f.mul(x, rx), c, f.mul(a, ra));
    assert f.add(f.add(c, f.mul(x, rx)), f.add(c, f.mul(a, ra))) == f.add(f.mul(x, rx), f.mul(a, ra));
    Laws(f, d, ra, f.mul(x, q));
    Laws(f, d, x, q);
    Laws(f, x, d, q);
    assert f.mul(d, f.add(ra, f.mul(x, q))) == f.add(f.mul(d, ra), f.mul(x, f.add(rx, ra)));
    Laws(f, x, rx, ra);
    Laws(f, ra, x, a);
    Laws(f, ra, d, a);
    Laws(f, ra, a, x);
    Exchange(f, f.mul(x, ra), f.mul(a, ra), f.mul(x, rx), f.mul(x, ra));
    assert f.mul(d, ra) == f.add(f.mul(x, ra), f.mul(a, ra));
    Laws(f, f.mul(a, ra), f.mul(x, ra), f.zero);
    Laws(f, f.mul(x, ra), f.mul(x, rx), f.add(f.mul(a, ra), f.mul(x, ra)));
    Laws(f, f.mul(x, rx), f.mul(x, ra), f.add(f.mul(x, ra), f.mul(a, ra)));
    Laws(f, f.mul(x, ra), f.mul(x, ra), f.mul(a, ra));
  }

  /** A polynomial with as many distinct roots as coefficients is zero everywhere. */
  lemma {:induction false} RootBound<T(!new)>(f: Field<T>, p: seq<T>, roots: seq<T>, x: T)
    requires IsField(f) && Distinct(roots) && |p| <= |roots|
    requires forall i | 0 <= i < |roots| :: Eval(f, p, roots[i]) == f.zero
    ensures Eval(f, p, x) == f.zero
    decreases |p|
  {
    if p != [] {
      var a, q := roots[0], Quotient(f, p, roots[0]);
      forall i | 0 <= i < |roots| - 1
        ensures Eval(f, q, roots[1..][i]) == f.zero
      {
        var r := roots[i + 1];
        EvalQuotient(f, p, a, r);
        AddCancel(f, r, a);
        NoZeroDivisors(f, f.add(r, a), Eval(f, q, r));
      }
      RootBound(f, q, roots[1..], x);
      EvalQuotient(f, p, a, x);
      ZeroLaws(f, f.add(x, a));
      ZeroLaws(f, Eval(f, p, x));
    }
  }

  /** Two polynomials that agree at enough points agree everywhere. */
  lemma Agreement<T(!new)>(f: Field<T>, p: seq<T>, q: seq<T>, xs: seq<T>, x: T)
    requires IsField(f) && Distinct(xs) && |p| <= |xs| && |q| <= |xs|
    requires forall i | 0 <= i < |xs| :: Eval(f, p, xs[i]) == Eval(f, q, xs[i])
    ensures Eval(f, p, x) == Eval(f, q, x)
  {
    var d := PolyAdd(f, p, q);
    forall i | 0 <= i < |xs| ensures Eval(f, d, xs[i]) == f.zero {
      EvalPolyAdd(f, p, q, xs[i]);
    }
    RootBound(f, d, xs, x);
    EvalPolyAdd(f, p, q, x);
    AddCancel(f, Eval(f, p, x), Eval(f, q, x));
  }

  // ---------- interpolation ----------

  /** The product of x - a over the points a. */
  function Vanishing<T>(f: Field<T>, xs: seq<T>): (r: seq<T>)
    ensures |r| == |xs| + 1
  {
    if xs == [] then [f.one] else MulLinear(f, xs[|xs| - 1], Vanishing(f, xs[..|xs| - 1]))
  }

  /** Newton's form of the polynomial through the points (xs[i], ys[i]). */
  function Interpolate<T>(f: Field<T>, xs: seq<T>, ys: seq<T>): (r: seq<T>)
    requires |xs| == |ys|
    ensures |r| == |xs|
  {
    if xs == [] then []
    else
      var n := |xs| - 1;
      var p := Interpolate(f, xs[..n], ys[..n]);
      var v := Vanishing(f, xs[..n]);
      var c := f.mul(f.add(Eval(f, p, xs[n]), ys[n]), f.inverse(Eval(f, v, xs[n])));
      PolyAdd(f, p, Scale(f, c, v))
  }

  lemma {:induction false} EvalVanishing<T(!new)>(f: Field<T>, xs: seq<T>, x: T)
    requires IsField(f)
    ensures Eval(f, Vanishing(f, xs), x) == f.zero <==> x in xs
  {
    if xs == [] {
      ZeroLaws(f, x);
      ZeroLaws(f, f.one);
    } else {
      var n := |xs| - 1;
      EvalVanishing(f, xs[..n], x);
      EvalMulLinear(f, xs[n], Vanishing(f, xs[..n]), x);
      assert xs == xs[..n] + [xs[n]];
      var e := Eval(f, Vanishing(f, xs[..n]), x);
      AddCancel(f, x, xs[n]);
      ZeroLaws(f, e);
      ZeroLaws(f, f.add(x, xs[n]));
      if f.mul(f.add(x, xs[n]), e) == f.zero && x != xs[n] {
        NoZeroDivisors(f, f.add(x, xs[n]), e);
      }
    }
  }

  lemma {:induction false} InterpolateThrough<T(!new)>(f: Field<T>, xs: seq<T>, ys: seq<T>, i: nat)
    requires IsField(f) && |xs| == |ys| && Distinct(xs) && i < |xs|
    ensures Eval(f, Interpolate(f, xs, ys), xs[i]) == ys[i]
    decreases |xs|
  {
    var n, x := |xs| - 1, xs[i];
    var p, v := Interpolate(f, xs[..n], ys[..n]), Vanishing(f, xs[..n]);
    var w := Eval(f, v, xs[n]);
    var e := f.add(Eval(f, p, xs[n]), ys[n]);
    var c := f.mul(e, f.inverse(w));
    EvalPolyAdd(f, p, Scale(f, c, v), x);
    EvalScale(f, c, v, x);
    EvalVanishing(f, xs[..n], x);
    if i < n {
      assert xs[..n][i] == x;
      InterpolateThrough(f, xs[..n], ys[..n], i);
      ZeroLaws(f, c);
      ZeroLaws(f, ys[i]);
    } else {
      Laws(f, e, f.inverse(w), w);
      Laws(f, f.inverse(w), w, w);
      Laws(f, e, f.one, w);
      AddCancel(f, Eval(f, p, x), ys[n]);
    }
  }

  // ---------- inverses from the Frobenius map ----------

  ghost predicate CommutativeMonoid<T(!new)>(f: Field<T>) {
    && (forall b, c {:trigger At(b, c)} :: At(b, c) ==> f.mul(b, c) == f.mul(c, b))
    && (forall b, c, d {:trigger At3(b, c, d)} :: At3(b, c, d) ==> f.mul(f.mul(b, c), d) == f.mul(b, f.mul(c, d)))
  }

  ghost predicate Squaring<T(!new)>(f: Field<T>, square: T -> T) {
    && (forall e :: square(e) == f.mul(e, e))
    && (forall e :: square(e) == e ==> e == f.zero || e == f.one)
  }

  function Product<T>(f: Field<T>, s: seq<T>): T
    requires |s| >= 1
  {
    if |s| == 1 then s[0] else f.mul(s[0], Product(f, s[1..]))
  }

  /** square(a), square(square(a)), and so on. */
  function Squares<T>(square: T -> T, a: T, n: nat): (s: seq<T>)
    ensures |s| == n
    decreases n
  {
    if n == 0 then [] else [square(a)] + Squares(square, square(a), n - 1)
  }

  function Iterate<T>(square: T -> T, a: T, n: nat): T {
    if n == 0 then a else Iterate(square, square(a), n - 1)
  }

  /** a a^2 (a^2 a^4 a^8 ...) telescopes. */
  lemma {:induction false} Telescope<T(!new)>(f: Field<T>, square: T -> T, a: T, n: nat)
    requires CommutativeMonoid(f) && Squaring(f, square) && n >= 1
    ensures f.mul(square(a), Product(f, Squares(square, a, n))) == Iterate(square, a, n + 1)
    decreases n
  {
    var s, b := Squares(square, a, n), square(a);
    if n > 1 {
      Telescope(f, square, b, n - 1);
      var t := Squares(square, b, n - 1);
      assert s[1..] == t;
      assert At3(b, b, Product(f, t));
    } else {
      assert Iterate(square, square(b), 0) == square(b);
    }
  }

  /**
    If repeated squaring returns to a, and only zero and one are idempotent, then the product of
    a^2, a^4, ... inverts a: e, a times that product, satisfies a e == a, hence e e == e.
  */
  lemma InverseBySquares<T(!new)>(f: Field<T>, square: T -> T, a: T, n: nat)
    requires CommutativeMonoid(f) && Squaring(f, square) && n >= 1
    requires a != f.zero && f.mul(a, f.zero) == f.zero && Iterate(square, a, n + 1) == a
    ensures f.mul(a, Product(f, Squares(square, a, n))) == f.one
  {
    var p := Product(f, Squares(square, a, n));
    var e := f.mul(a, p);
    Telescope(f, square, a, n);
    assert At3(a, a, p);
    assert f.mul(a, e) == a;
    assert At(a, e) && At3(e, a, p);
    assert square(e) == e;
  }
}
