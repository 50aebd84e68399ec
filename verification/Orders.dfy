/** Listing the elements of a set in some order, as a query does. */
module Orders {
  /** The order lists every element of the set exactly once. */
  ghost predicate Lists(order: seq<nat>, elements: set<nat>) {
    && (forall i | 0 <= i < |order| :: order[i] in elements)
    && (forall p | p in elements :: p in order)
    && (forall i, j | 0 <= i < j < |order| :: order[i] != order[j])
  }

  method Listed(elements: set<nat>) returns (order: seq<nat>)
    ensures Lists(order, elements)
  {
    order := [];
    var left := elements;
    while left != {}
      invariant left <= elements
      invariant Lists(order, elements - left)
      decreases left
    {
      var p :| p in left;
      order := order + [p];
      left := left - {p};
    }
  }

  /** The elements among the first i that are not skipped. */
  ghost function Done(order: seq<nat>, skipped: set<nat>, i: nat): set<nat>
    requires i <= |order|
  {
    set p | p in order[..i] && p !in skipped
  }

  lemma DoneNext(order: seq<nat>, elements: set<nat>, skipped: set<nat>, i: nat)
    requires Lists(order, elements) && i < |order|
    ensures order[i] !in Done(order, skipped, i)
    ensures Done(order, skipped, i + 1) == if order[i] in skipped then Done(order, skipped, i) else Done(order, skipped, i) + {order[i]}
  {
    assert order[..i + 1] == order[..i] + [order[i]];
  }

  lemma DoneAll(order: seq<nat>, elements: set<nat>, skipped: set<nat>)
    requires Lists(order, elements)
    ensures Done(order, skipped, |order|) == elements - skipped
  {
    assert order[..|order|] == order;
  }

  lemma {:induction false} ListedCount(order: seq<nat>, elements: set<nat>)
    requires Lists(order, elements)
    ensures |order| == |elements|
  {
    if order == [] {
      assert elements == {};
    } else {
      var rest, last := order[..|order| - 1], order[|order| - 1];
      assert order == rest + [last];
      ListedCount(rest, elements - {last});
    }
  }

  lemma {:induction false} SubsetSize<T>(a: set<T>, b: set<T>)
    requires a <= b
    ensures |a| <= |b|
  {
    if a != {} {
      var x :| x in a;
      SubsetSize(a - {x}, b - {x});
    }
  }
}
