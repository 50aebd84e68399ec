/**
  Weights and shares of an epoch's reward: `NodeWeight` of cyxcloud-metadata/src/models.rs and the
  payment loop of cyxcloud-gateway/src/payment_daemon.rs. Weights are exact fractions rounded down.
*/
module Payout {
  import opened Bytes
  import opened Sequences

  /** Uptime counts up to a full epoch; reputation 0, 5000 and 10000 give factors 0.5, 1 and 1.5. */
  function Weight(storage: nat, uptime: nat, epoch: nat, reputation: nat): nat
    requires epoch > 0
  {
    Saturated(Quotient(Product(storage, Capped(uptime, epoch), 5000 + reputation), epoch * 10000))
  }

  function Product(a: nat, b: nat, c: nat): nat { a * b * c }

  function Quotient(n: nat, d: nat): nat
    requires d > 0
  {
    n / d
  }

  function Capped(uptime: nat, epoch: nat): nat { if uptime < epoch then uptime else epoch }

  function Saturated(n: nat): nat { if n < U64_LIMIT then n else U64_LIMIT - 1 }

  /** The total as the daemon adds it up in 64 bits. */
  function TotalWeight(ws: seq<nat>): nat { Sum(ws) % U64_LIMIT }

  /** A node's part of the pool, computed in 128 bits and cut to 64. */
  function Share(pool: nat, weight: nat, total: nat): nat {
    if total == 0 then 0 else (pool * weight / total) % U64_LIMIT
  }

  function Shares(pool: nat, ws: seq<nat>, total: nat): (r: seq<nat>) {
    Mapped(w => Share(pool, w, total), ws)
  }

  /** The rewards that are not zero, by position. */
  function Rewards(shares: seq<nat>): map<nat, nat> {
    map i: nat | i < |shares| && shares[i] > 0 :: shares[i]
  }

  /** The payment loop: nodes without a reward are passed over. */
  method PayEach(share: nat -> nat, ws: seq<nat>) returns (paid: map<nat, nat>, nodesPaid: nat, totalPaid: nat)
    ensures paid == Rewards(Mapped(share, ws)) && nodesPaid == |paid| && totalPaid == Sum(Mapped(share, ws))
  {
    ghost var shares := Mapped(share, ws);
    paid, nodesPaid, totalPaid := map[], 0, 0;
    for i := 0 to |ws|
      invariant paid == Rewards(shares[..i])
      invariant nodesPaid == |paid| && totalPaid == Sum(shares[..i])
    {
      var reward := share(ws[i]);
      NextReward(shares, i);
      if reward > 0 {
        paid := paid[i := reward];
        nodesPaid := nodesPaid + 1;
        totalPaid := totalPaid + reward;
      }
    }
    assert shares[..|ws|] == shares;
  }

  lemma NextReward(shares: seq<nat>, i: nat)
    requires i < |shares|
    ensures i !in Rewards(shares[..i])
    ensures Rewards(shares[..i + 1]) == if shares[i] > 0 then Rewards(shares[..i])[i := shares[i]] else Rewards(shares[..i])
    ensures Sum(shares[..i + 1]) == Sum(shares[..i]) + shares[i]
  {
    assert shares[..i + 1][..i] == shares[..i];
  }

  method Pay(pool: nat, ws: seq<nat>) returns (paid: map<nat, nat>, nodesPaid: nat, totalPaid: nat)
    ensures var shares := Shares(pool, ws, TotalWeight(ws));
            paid == Rewards(shares) && nodesPaid == |paid| && totalPaid == Sum(shares)
  {
    var total := TotalWeight(ws);
    paid, nodesPaid, totalPaid := PayEach(w => Share(pool, w, total), ws);
  }

  // ---------- shares add up ----------

  lemma {:induction false} SumBounds(ws: seq<nat>, i: nat)
    requires i < |ws|
    ensures ws[i] <= Sum(ws)
  {
    if i < |ws| - 1 { SumBounds(ws[..|ws| - 1], i); }
  }

  lemma DivideBounds(n: nat, d: nat)
    requires d > 0
    ensures (n / d) * d <= n < (n / d + 1) * d
  {}

  lemma MulLe(a: nat, b: nat, c: nat)
    requires a <= b
    ensures a * c <= b * c
  {}

  lemma CancelLe(a: nat, b: nat, c: nat)
    requires c > 0 && a * c <= b * c
    ensures a <= b
  {
    if a > b { MulGap(b, a, c); }
  }

  lemma CancelLt(a: nat, b: nat, c: nat)
    requires a * c < b * c
    ensures a < b
  {
    if a >= b { MulLe(b, a, c); }
  }

  /** The narrowing to 64 bits loses nothing, and no share exceeds the pool. */
  lemma ShareIsExact(pool: nat, weight: nat, total: nat)
    requires weight <= total && total > 0 && pool < U64_LIMIT
    ensures Share(pool, weight, total) == Quotient(pool * weight, total) <= pool
  {
    var product := pool * weight;
    MulLe(weight, total, pool);
    QuotientBound(product, pool, total);
    assert Quotient(product, total) <= pool < U64_LIMIT;
  }

  lemma QuotientBound(product: nat, pool: nat, total: nat)
    requires total > 0 && product <= pool * total
    ensures Quotient(product, total) <= pool
  {
    var q := Quotient(product, total);
    DivideBounds(product, total);
    CancelLe(q, pool, total);
  }

  /** The 64-bit narrowing does not change the share. */
  predicate Fits(pool: nat, weight: nat, total: nat)
    requires total > 0
  {
    Quotient(pool * weight, total) < U64_LIMIT
  }

  lemma {:induction false} PrefixShares(pool: nat, ws: seq<nat>, total: nat)
    requires total > 0 && forall i | 0 <= i < |ws| :: Fits(pool, ws[i], total)
    ensures Sum(Shares(pool, ws, total)) * total <= pool * Sum(ws)
    ensures pool * Sum(ws) <= (Sum(Shares(pool, ws, total)) + |ws|) * total
    ensures ws != [] ==> pool * Sum(ws) < (Sum(Shares(pool, ws, total)) + |ws|) * total
  {
    if ws != [] {
      var front, w := ws[..|ws| - 1], ws[|ws| - 1];
      PrefixShares(pool, front, total);
      assert Shares(pool, ws, total)[..|front|] == Shares(pool, front, total);
      var share := Quotient(pool * w, total);
      assert Fits(pool, w, total);
      FittingShare(pool, w, total);
      DivideBounds(pool * w, total);
      AddShare(pool, Sum(front), w, Sum(Shares(pool, front, total)), share, |front|, total);
    }
  }

  lemma FittingShare(pool: nat, weight: nat, total: nat)
    requires total > 0 && Fits(pool, weight, total)
    ensures Share(pool, weight, total) == Quotient(pool * weight, total)
  {}

  lemma AddShare(pool: nat, sum: nat, w: nat, given: nat, share: nat, n: nat, total: nat)
    requires given * total <= pool * sum <= (given + n) * total
    requires share * total <= pool * w < (share + 1) * total
    ensures (given + share) * total <= pool * (sum + w) < (given + share + (n + 1)) * total
  {
    assert (given + share) * total == given * total + share * total;
    assert pool * (sum + w) == pool * sum + pool * w;
    assert (given + share + (n + 1)) * total == (given + n) * total + (share + 1) * total;
  }

  /**
    Conservation: when the total is positive and fits 64 bits, the shares add up to at most the pool
    and fall short of it by less than the number of nodes.
  */
  lemma SharesConserve(pool: nat, ws: seq<nat>)
    requires pool < U64_LIMIT && 0 < Sum(ws) < U64_LIMIT
    ensures Sum(Shares(pool, ws, TotalWeight(ws))) <= pool < Sum(Shares(pool, ws, TotalWeight(ws))) + |ws|
  {
    TotalFits(ws);
    ExactConserve(pool, ws, Sum(ws));
  }

  lemma TotalFits(ws: seq<nat>)
    requires Sum(ws) < U64_LIMIT
    ensures TotalWeight(ws) == Sum(ws)
  {}

  lemma ExactConserve(pool: nat, ws: seq<nat>, total: nat)
    requires pool < U64_LIMIT && 0 < total == Sum(ws)
    ensures Sum(Shares(pool, ws, total)) <= pool < Sum(Shares(pool, ws, total)) + |ws|
  {
    forall i | 0 <= i < |ws| ensures Fits(pool, ws[i], total) {
      SumBounds(ws, i);
      ShareIsExact(pool, ws[i], total);
    }
    PrefixShares(pool, ws, total);
    Within(pool, Sum(Shares(pool, ws, total)), |ws|, total);
  }

  lemma Within(pool: nat, paid: nat, n: nat, total: nat)
    requires total > 0 && paid * total <= pool * total < (paid + n) * total
    ensures paid <= pool < paid + n
  {
    CancelLe(paid, pool, total);
    CancelLt(pool, paid + n, total);
  }

  /** A total of zero, because there is no weight or because the sum wraps to it: nobody is paid. */
  lemma {:induction false} NoWeightNoPay(pool: nat, ws: seq<nat>)
    requires TotalWeight(ws) == 0
    ensures Sum(Shares(pool, ws, TotalWeight(ws))) == 0
  {
    SumOfZeros(Shares(pool, ws, 0));
  }

  lemma {:induction false} SumOfZeros(ws: seq<nat>)
    requires forall i | 0 <= i < |ws| :: ws[i] == 0
    ensures Sum(ws) == 0
  {
    if ws != [] { SumOfZeros(ws[..|ws| - 1]); }
  }

  lemma DivideMonotone(a: nat, b: nat, d: nat)
    requires d > 0 && a <= b
    ensures a / d <= b / d
  {
    var p, q := Quotient(a, d), Quotient(b, d);
    DivideBounds(a, d);
    DivideBounds(b, d);
    CancelLt(p, q + 1, d);
  }

  /** A heavier node never gets less. */
  lemma SharesMonotone(pool: nat, ws: seq<nat>, i: nat, j: nat)
    requires pool < U64_LIMIT && Sum(ws) < U64_LIMIT && i < |ws| && j < |ws| && ws[i] <= ws[j]
    ensures Shares(pool, ws, TotalWeight(ws))[i] <= Shares(pool, ws, TotalWeight(ws))[j]
  {
    TotalFits(ws);
    SumBounds(ws, i);
    SumBounds(ws, j);
    ShareMonotone(pool, ws[i], ws[j], Sum(ws));
  }

  lemma ShareMonotone(pool: nat, w: nat, v: nat, total: nat)
    requires pool < U64_LIMIT && w <= v <= total
    ensures Share(pool, w, total) <= Share(pool, v, total)
  {
    if total > 0 {
      ShareIsExact(pool, w, total);
      ShareIsExact(pool, v, total);
      MulLe(w, v, pool);
      DivideMonotone(pool * w, pool * v, total);
    }
  }

  // ---------- exactly when the shares are conserved ----------

  /** Weights are 64-bit numbers. */
  ghost predicate Narrow(ws: seq<nat>) { forall i | 0 <= i < |ws| :: ws[i] < U64_LIMIT }

  /** What all nodes are paid together. */
  function Paid(pool: nat, ws: seq<nat>): nat { Sum(Shares(pool, ws, TotalWeight(ws))) }

  /** No pool is overspent. */
  ghost predicate NeverOverpays(ws: seq<nat>) {
    forall pool: nat | pool < U64_LIMIT :: Paid(pool, ws) <= pool
  }

  /** Of every pool less remains than there are nodes. */
  ghost predicate UsesPool(ws: seq<nat>) {
    forall pool: nat | pool < U64_LIMIT :: pool < Paid(pool, ws) + |ws|
  }

  /** With a pool as large as the total, every node is given its weight. */
  lemma PoolOfTotal(ws: seq<nat>)
    requires Narrow(ws) && TotalWeight(ws) > 0
    ensures Shares(TotalWeight(ws), ws, TotalWeight(ws)) == ws
  {
    var total := TotalWeight(ws);
    forall i | 0 <= i < |ws| ensures Share(total, ws[i], total) == ws[i] { ShareOfTotal(ws[i], total); }
  }

  lemma ShareOfTotal(w: nat, total: nat)
    requires w < U64_LIMIT && total > 0
    ensures Share(total, w, total) == w
  {
    DivUnique(total * w, total, w, 0);
  }

  /** Whatever the pool, the shares stay within it if and only if the sum of the weights fits 64 bits or wraps to zero. */
  lemma NeverOverpaysIff(ws: seq<nat>)
    requires Narrow(ws)
    ensures NeverOverpays(ws) <==> Sum(ws) < U64_LIMIT || TotalWeight(ws) == 0
  {
    if TotalWeight(ws) == 0 {
      forall pool: nat | pool < U64_LIMIT ensures Paid(pool, ws) <= pool { NoWeightNoPay(pool, ws); }
    } else if Sum(ws) < U64_LIMIT {
      forall pool: nat | pool < U64_LIMIT ensures Paid(pool, ws) <= pool { SharesConserve(pool, ws); }
    } else {
      PoolOfTotal(ws);
      assert Paid(TotalWeight(ws), ws) > TotalWeight(ws);
    }
  }

  /** If the sum fits, or nobody is paid, the pool is used up if and only if there is weight, or 2^64 nodes. */
  lemma UsesPoolIff(ws: seq<nat>)
    requires Sum(ws) < U64_LIMIT || TotalWeight(ws) == 0
    ensures UsesPool(ws) <==> TotalWeight(ws) > 0 || |ws| >= U64_LIMIT
  {
    if TotalWeight(ws) == 0 {
      forall pool: nat | pool < U64_LIMIT ensures Paid(pool, ws) == 0 { NoWeightNoPay(pool, ws); }
      if |ws| < U64_LIMIT { assert Paid(U64_LIMIT - 1, ws) == 0; }
    } else {
      forall pool: nat | pool < U64_LIMIT ensures pool < Paid(pool, ws) + |ws| { SharesConserve(pool, ws); }
    }
  }

  /** Every pool is conserved, both ways, if and only if the sum is positive and fits, or nobody is paid and there are 2^64 nodes. */
  lemma ConservesIff(ws: seq<nat>)
    requires Narrow(ws)
    ensures NeverOverpays(ws) && UsesPool(ws) <==> 0 < Sum(ws) < U64_LIMIT || (TotalWeight(ws) == 0 && |ws| >= U64_LIMIT)
  {
    NeverOverpaysIff(ws);
    if Sum(ws) < U64_LIMIT || TotalWeight(ws) == 0 { UsesPoolIff(ws); }
    if Sum(ws) < U64_LIMIT { TotalFits(ws); }
  }

  /** One pool at a time: even if the total wraps, less remains than there are nodes as long as no share is narrowed. */
  lemma ShortfallUnlessNarrowed(pool: nat, ws: seq<nat>)
    requires TotalWeight(ws) > 0 && forall i | 0 <= i < |ws| :: Fits(pool, ws[i], TotalWeight(ws))
    ensures pool < Sum(Shares(pool, ws, TotalWeight(ws))) + |ws|
  {
    var total := TotalWeight(ws);
    PrefixShares(pool, ws, total);
    TotalBelowSum(ws);
    if ws != [] { LessRemains(pool, Sum(Shares(pool, ws, total)) + |ws|, Sum(ws), total); }
  }

  lemma LessRemains(pool: nat, bound: nat, sum: nat, total: nat)
    requires total <= sum && pool * sum < bound * total
    ensures pool < bound
  {
    MulLe(total, sum, pool);
    CancelLt(pool, bound, total);
  }

  lemma TotalBelowSum(ws: seq<nat>)
    ensures TotalWeight(ws) <= Sum(ws)
  {}

  lemma SumOfTwo(a: nat, b: nat)
    ensures Sum([a, b]) == a + b
  {
    assert [a, b][..1] == [a] && [a][..0] == [];
    assert Sum([a]) == a;
  }

  lemma SharesOfTwo(pool: nat, a: nat, b: nat, total: nat)
    ensures Sum(Shares(pool, [a, b], total)) == Share(pool, a, total) + Share(pool, b, total)
  {
    assert Shares(pool, [a, b], total) == [Share(pool, a, total), Share(pool, b, total)];
    SumOfTwo(Share(pool, a, total), Share(pool, b, total));
  }

  /** Two weights whose 64-bit total wraps to 3: of a pool of 3 one node alone is promised almost 2^64. */
  lemma WrappedTotalOverpays()
    ensures var ws := [U64_LIMIT - 1, 4]; Narrow(ws) && TotalWeight(ws) == 3 && Shares(3, ws, 3) == ws && !NeverOverpays(ws)
  {
    var ws := [U64_LIMIT - 1, 4];
    SumOfTwo(U64_LIMIT - 1, 4);
    PoolOfTotal(ws);
    NeverOverpaysIff(ws);
  }

  /** A wrapped total can also lose most of the pool: the share of the heaviest node is narrowed. */
  lemma NarrowedShareLosesPool()
    ensures var ws, pool := [U64_LIMIT - 1, 4], 3 * (U64_LIMIT / 4) + 1;
            pool < U64_LIMIT && Narrow(ws) && TotalWeight(ws) == 3 && Sum(Shares(pool, ws, 3)) + |ws| <= pool
  {
    var ws, pool := [U64_LIMIT - 1, 4], 3 * (U64_LIMIT / 4) + 1;
    SumOfTwo(U64_LIMIT - 1, 4);
    SharesOfTwo(pool, U64_LIMIT - 1, 4, 3);
  }

  // ---------- weights ----------

  lemma MulMonotone(a: nat, b: nat, c: nat, x: nat, y: nat, z: nat)
    requires a <= x && b <= y && c <= z
    ensures a * b * c <= x * y * z
  {
    MulLe(a, x, b);
    assert x * b <= x * y by { MulLe(b, y, x); }
    MulLe(a * b, x * y, c);
    assert (x * y) * c <= (x * y) * z by { MulLe(c, z, x * y); }
  }

  lemma QuotientBounds(n: nat, d: nat)
    requires d > 0
    ensures Quotient(n, d) * d <= n < (Quotient(n, d) + 1) * d
    ensures Quotient(n, d) < U64_LIMIT <==> n < U64_LIMIT * d
  {
    var q := n / d;
    DivideBounds(n, d);
    if q < U64_LIMIT { MulLe(q + 1, U64_LIMIT, d); } else { MulLe(U64_LIMIT, q, d); }
  }

  /**
    The weight is storage times the part of the epoch the node was up times the reputation factor, rounded down; only a
    weight beyond 64 bits is cut to the largest one.
  */
  lemma WeightExact(storage: nat, uptime: nat, epoch: nat, reputation: nat)
    requires epoch > 0
    ensures var up := if uptime <= epoch then uptime else epoch;
            var w, n, d := Weight(storage, uptime, epoch, reputation), storage * up * (5000 + reputation), epoch * 10000;
            if n < U64_LIMIT * d then w * d <= n < (w + 1) * d else w == U64_LIMIT - 1
  {
    var up := if uptime <= epoch then uptime else epoch;
    QuotientBounds(storage * up * (5000 + reputation), epoch * 10000);
  }

  /** More storage, more uptime or a better reputation never lowers the weight. */
  lemma WeightMonotone(storage: nat, uptime: nat, reputation: nat, storage': nat, uptime': nat, reputation': nat, epoch: nat)
    requires epoch > 0 && storage <= storage' && uptime <= uptime' && reputation <= reputation'
    ensures Weight(storage, uptime, epoch, reputation) <= Weight(storage', uptime', epoch, reputation')
  {
    var c, c' := Capped(uptime, epoch), Capped(uptime', epoch);
    MulMonotone(storage, c, 5000 + reputation, storage', c', 5000 + reputation');
    DivideMonotone(storage * c * (5000 + reputation), storage' * c' * (5000 + reputation'), epoch * 10000);
  }

  /** A node that was up for the whole epoch weighs its storage times the reputation factor. */
  lemma FullUptimeWeight(storage: nat, uptime: nat, epoch: nat, reputation: nat)
    requires epoch > 0 && uptime >= epoch
    ensures Weight(storage, uptime, epoch, reputation) == Saturated(storage * (5000 + reputation) / 10000)
  {
    var n := storage * (5000 + reputation);
    var q, r := n / 10000, n % 10000;
    assert storage * epoch * (5000 + reputation) == n * epoch by {
      assert storage * epoch * (5000 + reputation) == storage * (epoch * (5000 + reputation)) == storage * ((5000 + reputation) * epoch);
    }
    assert n == 10000 * q + r;
    ScaledDivision(n, epoch, q, r);
  }

  lemma ScaledDivision(n: nat, epoch: nat, q: nat, r: nat)
    requires epoch > 0 && n == 10000 * q + r && r < 10000
    ensures n * epoch / (epoch * 10000) == q
  {
    var d := epoch * 10000;
    MulGap(r, 10000, epoch);
    assert n * epoch == q * d + r * epoch by {
      assert n * epoch == (10000 * q) * epoch + r * epoch;
      assert (10000 * q) * epoch == q * d;
    }
    DivUnique(n * epoch, d, q, r * epoch);
  }

  /** Reputation is between 0 and 10000: the weight never exceeds one and a half times the storage. */
  lemma WeightBound(storage: nat, uptime: nat, epoch: nat, reputation: nat)
    requires epoch > 0 && reputation <= 10000
    ensures 2 * Weight(storage, uptime, epoch, reputation) <= 3 * storage
  {
    FullUptimeWeight(storage, epoch + uptime, epoch, 10000);
    WeightMonotone(storage, uptime, reputation, storage, epoch + uptime, 10000, epoch);
  }
}
