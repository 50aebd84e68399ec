/** Sums of powers of a linear map on an additive group: they are linear and commute. */
module LinearMaps {

  datatype Additive<!T> = Additive(zero: T, add: (T, T) -> T)

  /** Names the elements at which a law is to be used, so that no law is instantiated by accident. */
  ghost predicate At<T(!new)>(a: T, b: T) { true }
  ghost predicate At4<T(!new)>(a: T, b: T, c: T, d: T) { true }

  ghost predicate Lawful<T(!new)>(g: Additive<T>) {
    && (forall a :: g.add(g.zero, a) == a)
    && (forall a, b, c, d {:trigger At4(a, b, c, d)} :: At4(a, b, c, d) ==>
          g.add(g.add(a, b), g.add(c, d)) == g.add(g.add(a, c), g.add(b, d)))
  }

  ghost predicate Linear<T(!new)>(g: Additive<T>, x: T -> T) {
    x(g.zero) == g.zero
    && forall a, b {:trigger At(a, b)} :: At(a, b) ==> x(g.add(a, b)) == g.add(x(a), x(b))
  }

  function Select<T>(g: Additive<T>, bit: bool, a: T): T {
    if bit then a else g.zero
  }

  /** The sum of the powers x^i(a) of a map x, over the set bits i. */
  function SumPowers<T>(g: Additive<T>, x: T -> T, a: T, bits: seq<bool>): T
    decreases |bits|
  {
    if bits == [] then g.zero else g.add(Select(g, bits[0], a), SumPowers(g, x, x(a), bits[1..]))
  }

  lemma {:induction false} SumPowersLinear<T(!new)>(g: Additive<T>, x: T -> T, a: T, b: T, bits: seq<bool>)
    requires Lawful(g) && Linear(g, x)
    ensures SumPowers(g, x, g.add(a, b), bits) == g.add(SumPowers(g, x, a, bits), SumPowers(g, x, b, bits))
    decreases |bits|
  {
    if bits != [] {
      assert At(a, b);
      SumPowersLinear(g, x, x(a), x(b), bits[1..]);
      assert At4(Select(g, bits[0], a), Select(g, bits[0], b),
                 SumPowers(g, x, x(a), bits[1..]), SumPowers(g, x, x(b), bits[1..]));
    }
  }

  lemma {:induction false} SumPowersOfZero<T(!new)>(g: Additive<T>, x: T -> T, bits: seq<bool>)
    requires Lawful(g) && Linear(g, x)
    ensures SumPowers(g, x, g.zero, bits) == g.zero
    decreases |bits|
  {
    if bits != [] { SumPowersOfZero(g, x, bits[1..]); }
  }

  lemma {:induction false} SumPowersOfImage<T(!new)>(g: Additive<T>, x: T -> T, a: T, bits: seq<bool>)
    requires Lawful(g) && Linear(g, x)
    ensures SumPowers(g, x, x(a), bits) == x(SumPowers(g, x, a, bits))
    decreases |bits|
  {
    if bits != [] {
      SumPowersOfImage(g, x, x(a), bits[1..]);
      assert At(Select(g, bits[0], a), SumPowers(g, x, x(a), bits[1..]));
    }
  }

  /** Any two sums of powers of the same linear map commute. */
  lemma {:induction false} SumPowersCommute<T(!new)>(g: Additive<T>, x: T -> T, a: T, p: seq<bool>, q: seq<bool>)
    requires Lawful(g) && Linear(g, x)
    ensures SumPowers(g, x, SumPowers(g, x, a, p), q) == SumPowers(g, x, SumPowers(g, x, a, q), p)
    decreases |p|
  {
    SumPowersOfZero(g, x, q);
    if p != [] {
      SumPowersLinear(g, x, Select(g, p[0], a), SumPowers(g, x, x(a), p[1..]), q);
      SumPowersCommute(g, x, x(a), p[1..], q);
      SumPowersOfImage(g, x, a, q);
    }
  }

  lemma SumPowersUnrolled<T>(g: Additive<T>, x: T -> T, a: T, s: seq<bool>)
    requires |s| == 8
    ensures SumPowers(g, x, a, s) ==
            var a1 := x(a); var a2 := x(a1); var a3 := x(a2); var a4 := x(a3);
            var a5 := x(a4); var a6 := x(a5); var a7 := x(a6);
            g.add(Select(g, s[0], a), g.add(Select(g, s[1], a1), g.add(Select(g, s[2], a2),
            g.add(Select(g, s[3], a3), g.add(Select(g, s[4], a4), g.add(Select(g, s[5], a5),
            g.add(Select(g, s[6], a6), g.add(Select(g, s[7], a7), g.zero))))))))
  {
    var a4 := x(x(x(x(a))));
    SumPowersFour(g, x, a, s);
    SumPowersFour(g, x, a4, s[4..]);
    assert s[4..][4..] == [];
  }

  lemma SumPowersFour<T>(g: Additive<T>, x: T -> T, a: T, s: seq<bool>)
    requires |s| >= 4
    ensures SumPowers(g, x, a, s) ==
            var a1 := x(a); var a2 := x(a1); var a3 := x(a2);
            g.add(Select(g, s[0], a), g.add(Select(g, s[1], a1), g.add(Select(g, s[2], a2),
            g.add(Select(g, s[3], a3), SumPowers(g, x, x(a3), s[4..])))))
  {
    var a1 := x(a); var a2 := x(a1); var a3 := x(a2);
    assert s[1..][1..] == s[2..] && s[2..][1..] == s[3..] && s[3..][1..] == s[4..];
    assert SumPowers(g, x, a2, s[2..]) == g.add(Select(g, s[2], a2), SumPowers(g, x, a3, s[3..]));
    assert SumPowers(g, x, a1, s[1..]) == g.add(Select(g, s[1], a1), SumPowers(g, x, a2, s[2..]));
  }
}
