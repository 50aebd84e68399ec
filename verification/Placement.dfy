/**
  Greedy, topology-aware placement of shards on nodes (cyxcloud-metadata/src/topology.rs).
  The floating-point score of a node is a parameter: it depends on the node and on how many shards
  its datacenter and rack already hold.
*/
module Placement {
  import opened Wrappers
  import opened Sorting

  type Rack = (string, int)

  datatype Config = Config(maxPerDc: nat, maxPerRack: nat, minAvailable: nat)

  const DEFAULT_CONFIG := Config(6, 2, 1024 * 1024 * 1024)

  datatype Node = Node(id: string, address: string, datacenter: Option<string>, rack: Option<int>,
                       storageTotal: nat, storageUsed: nat)
  {
    function AvailableStorage(): nat {
      if storageUsed <= storageTotal then storageTotal - storageUsed else 0
    }

    /** A rack is only known inside a datacenter. */
    function RackOf(): Option<Rack> {
      if datacenter.Some? && rack.Some? then Some((datacenter.value, rack.value)) else None
    }
  }

  datatype Decision = Decision(shardIndex: nat, nodes: seq<Node>)

  type Score = (Node, map<string, nat>, map<Rack, nat>) -> real

  /** A bonus for a datacenter without shards, a penalty for each shard it holds. */
  function DcTerm(n: Node, dcs: map<string, nat>): real {
    match n.datacenter
    case None => 0.0
    case Some(dc) => if Count(dcs, dc) == 0 then 50.0 else -(Count(dcs, dc) as real) * 10.0
  }

  function RackTerm(n: Node, racks: map<Rack, nat>): real {
    match n.RackOf()
    case None => 0.0
    case Some(rack) => if Count(racks, rack) == 0 then 25.0 else -(Count(racks, rack) as real) * 5.0
  }

  /** The score of a node: what its utilization, distance and bandwidth give, and the two terms for diversity. */
  function ScoreNode(base: Node -> real): Score {
    (n, dcs, racks) => base(n) + DcTerm(n, dcs) + RackTerm(n, racks)
  }

  // ---------- counting ----------

  function InDc(nodes: seq<Node>, dc: string): nat {
    if nodes == [] then 0
    else (if nodes[|nodes| - 1].datacenter == Some(dc) then 1 else 0) + InDc(nodes[..|nodes| - 1], dc)
  }

  function InRack(nodes: seq<Node>, rack: Rack): nat {
    if nodes == [] then 0
    else (if nodes[|nodes| - 1].RackOf() == Some(rack) then 1 else 0) + InRack(nodes[..|nodes| - 1], rack)
  }

  function Count<K>(usage: map<K, nat>, key: K): nat {
    if key in usage then usage[key] else 0
  }

  function Bump<K>(usage: map<K, nat>, key: Option<K>): map<K, nat> {
    match key
    case None => usage
    case Some(k) => usage[k := Count(usage, k) + 1]
  }

  /** A usage map that holds exactly the true counts. */
  ghost predicate CountsDcs(usage: map<string, nat>, nodes: seq<Node>) {
    (forall dc :: Count(usage, dc) == InDc(nodes, dc)) && (forall dc | dc in usage :: usage[dc] > 0)
  }

  ghost predicate CountsRacks(usage: map<Rack, nat>, nodes: seq<Node>) {
    (forall rack :: Count(usage, rack) == InRack(nodes, rack)) && (forall rack | rack in usage :: usage[rack] > 0)
  }

  lemma BumpCounts(dcs: map<string, nat>, racks: map<Rack, nat>, nodes: seq<Node>, n: Node)
    requires CountsDcs(dcs, nodes) && CountsRacks(racks, nodes)
    ensures CountsDcs(Bump(dcs, n.datacenter), nodes + [n]) && CountsRacks(Bump(racks, n.RackOf()), nodes + [n])
  {
    assert (nodes + [n])[..|nodes|] == nodes;
  }

  // ---------- selecting nodes for one shard ----------

  function ByScore(score: Node -> real): Before<Node> { (a: Node, b: Node) => score(a) > score(b) }

  /** A stable sort, best score first. */
  function SortByScore(nodes: seq<Node>, score: Node -> real): (r: seq<Node>)
    ensures |r| == |nodes|
  {
    Sort(nodes, ByScore(score))
  }

  /** The node's datacenter or rack is already full. */
  predicate Blocked(cfg: Config, chosen: seq<Node>, n: Node) {
    || (n.datacenter.Some? && InDc(chosen, n.datacenter.value) >= cfg.maxPerDc)
    || (n.RackOf().Some? && InRack(chosen, n.RackOf().value) >= cfg.maxPerRack)
  }

  function Greedy(cfg: Config, candidates: seq<Node>, count: nat, chosen: seq<Node>): seq<Node> {
    if candidates == [] || |chosen| >= count then chosen
    else if Blocked(cfg, chosen, candidates[0]) then Greedy(cfg, candidates[1..], count, chosen)
    else Greedy(cfg, candidates[1..], count, chosen + [candidates[0]])
  }

  function Select(cfg: Config, nodes: seq<Node>, count: nat, score: Node -> real): seq<Node> {
    if count >= |nodes| then nodes else Greedy(cfg, SortByScore(nodes, score), count, [])
  }

  method SelectForShard(cfg: Config, nodes: seq<Node>, count: nat, score: Score,
                        dcUsage: map<string, nat>, rackUsage: map<Rack, nat>) returns (selected: seq<Node>)
    ensures selected == Select(cfg, nodes, count, n => score(n, dcUsage, rackUsage))
  {
    if count >= |nodes| {
      return nodes;
    }
    var scored := SortByScore(nodes, n => score(n, dcUsage, rackUsage));
    selected := [];
    var selectedDcs: map<string, nat> := map[];
    var selectedRacks: map<Rack, nat> := map[];
    for i := 0 to |scored|
      invariant CountsDcs(selectedDcs, selected) && CountsRacks(selectedRacks, selected)
      invariant Greedy(cfg, scored[i..], count, selected) == Greedy(cfg, scored, count, [])
    {
      if |selected| >= count { break; }
      var node := scored[i];
      assert scored[i..][1..] == scored[i + 1..];
      if node.datacenter.Some? {
        if Count(selectedDcs, node.datacenter.value) >= cfg.maxPerDc { continue; }
      }
      if node.RackOf().Some? {
        if Count(selectedRacks, node.RackOf().value) >= cfg.maxPerRack { continue; }
      }
      BumpCounts(selectedDcs, selectedRacks, selected, node);
      selectedDcs := Bump(selectedDcs, node.datacenter);
      selectedRacks := Bump(selectedRacks, node.RackOf());
      selected := selected + [node];
    }
  }

  // ---------- selecting nodes for all shards ----------

  function Eligible(cfg: Config, nodes: seq<Node>): seq<Node> {
    if nodes == [] then []
    else Eligible(cfg, nodes[..|nodes| - 1])
         + (if nodes[|nodes| - 1].AvailableStorage() >= cfg.minAvailable then [nodes[|nodes| - 1]] else [])
  }

  /** All nodes placed so far, in order. */
  function Placed(decisions: seq<Decision>): seq<Node> {
    if decisions == [] then [] else Placed(decisions[..|decisions| - 1]) + decisions[|decisions| - 1].nodes
  }

  /**
    Decision i is the greedy selection under scores computed from usage maps that hold exactly the
    counts of the nodes placed for the shards before it.
  */
  ghost predicate Scored(cfg: Config, nodes: seq<Node>, replicas: nat, score: Score, decisions: seq<Decision>, i: nat)
    requires i < |decisions|
  {
    exists dcs: map<string, nat>, racks: map<Rack, nat> ::
      CountsDcs(dcs, Placed(decisions[..i])) && CountsRacks(racks, Placed(decisions[..i]))
      && decisions[i] == Decision(i, Select(cfg, Eligible(cfg, nodes), replicas, n => score(n, dcs, racks)))
  }

  /** Adds the nodes selected for one shard to the usage maps. */
  method RecordUsage(dcUsage: map<string, nat>, rackUsage: map<Rack, nat>, selected: seq<Node>, ghost before: seq<Node>)
    returns (dcs: map<string, nat>, racks: map<Rack, nat>)
    requires CountsDcs(dcUsage, before) && CountsRacks(rackUsage, before)
    ensures CountsDcs(dcs, before + selected) && CountsRacks(racks, before + selected)
  {
    dcs, racks := dcUsage, rackUsage;
    assert before + selected[..0] == before;
    for j := 0 to |selected|
      invariant CountsDcs(dcs, before + selected[..j]) && CountsRacks(racks, before + selected[..j])
    {
      BumpCounts(dcs, racks, before + selected[..j], selected[j]);
      assert before + selected[..j] + [selected[j]] == before + selected[..j + 1];
      dcs := Bump(dcs, selected[j].datacenter);
      racks := Bump(racks, selected[j].RackOf());
    }
    assert selected[..|selected|] == selected;
  }

  method SelectNodes(cfg: Config, available: seq<Node>, numShards: nat, replicas: nat, score: Score)
    returns (decisions: seq<Decision>)
    ensures |decisions| == if Eligible(cfg, available) == [] then 0 else numShards
    ensures forall i | 0 <= i < |decisions| :: Scored(cfg, available, replicas, score, decisions, i)
  {
    if available == [] {
      return [];
    }
    var eligible := [];
    for i := 0 to |available|
      invariant eligible == Eligible(cfg, available[..i])
    {
      assert available[..i + 1][..i] == available[..i];
      if available[i].AvailableStorage() >= cfg.minAvailable { eligible := eligible + [available[i]]; }
    }
    assert available[..|available|] == available;
    if eligible == [] {
      return [];
    }
    decisions := [];
    var dcUsage: map<string, nat> := map[];
    var rackUsage: map<Rack, nat> := map[];
    for shard := 0 to numShards
      invariant |decisions| == shard
      invariant CountsDcs(dcUsage, Placed(decisions)) && CountsRacks(rackUsage, Placed(decisions))
      invariant forall i | 0 <= i < |decisions| :: Scored(cfg, available, replicas, score, decisions, i)
    {
      var selected := SelectForShard(cfg, eligible, replicas, score, dcUsage, rackUsage);
      ghost var dcs, racks := dcUsage, rackUsage;
      dcUsage, rackUsage := RecordUsage(dcUsage, rackUsage, selected, Placed(decisions));
      ScoredAppend(cfg, available, replicas, score, decisions, Decision(shard, selected), dcs, racks);
      decisions := decisions + [Decision(shard, selected)];
    }
  }

  lemma ScoredAppend(cfg: Config, nodes: seq<Node>, replicas: nat, score: Score, decisions: seq<Decision>,
                     last: Decision, dcs: map<string, nat>, racks: map<Rack, nat>)
    requires forall i | 0 <= i < |decisions| :: Scored(cfg, nodes, replicas, score, decisions, i)
    requires CountsDcs(dcs, Placed(decisions)) && CountsRacks(racks, Placed(decisions))
    requires last == Decision(|decisions|, Select(cfg, Eligible(cfg, nodes), replicas, n => score(n, dcs, racks)))
    ensures var all := decisions + [last];
            && Placed(all) == Placed(decisions) + last.nodes
            && forall i | 0 <= i < |all| :: Scored(cfg, nodes, replicas, score, all, i)
  {
    var all := decisions + [last];
    assert all[..|decisions|] == decisions;
    forall i | 0 <= i < |all| ensures Scored(cfg, nodes, replicas, score, all, i) {
      if i < |decisions| {
        assert all[..i] == decisions[..i];
        assert Scored(cfg, nodes, replicas, score, decisions, i);
      }
    }
  }

  // ---------- what the greedy choice guarantees ----------

  /** No datacenter and no rack holds more than its limit. */
  ghost predicate WithinLimits(cfg: Config, chosen: seq<Node>) {
    && (forall dc :: InDc(chosen, dc) <= cfg.maxPerDc)
    && (forall rack :: InRack(chosen, rack) <= cfg.maxPerRack)
  }

  lemma {:induction false} CountsGrow(chosen: seq<Node>, more: seq<Node>, dc: string, rack: Rack)
    ensures InDc(chosen, dc) <= InDc(chosen + more, dc) && InRack(chosen, rack) <= InRack(chosen + more, rack)
    decreases |more|
  {
    if more == [] {
      assert chosen + more == chosen;
    } else {
      var n := |more| - 1;
      assert (chosen + more)[..|chosen| + n] == chosen + more[..n];
      CountsGrow(chosen, more[..n], dc, rack);
    }
  }

  lemma AddUnblocked(cfg: Config, chosen: seq<Node>, n: Node)
    requires WithinLimits(cfg, chosen) && !Blocked(cfg, chosen, n)
    ensures WithinLimits(cfg, chosen + [n])
  {
    var more := chosen + [n];
    assert more[..|chosen|] == chosen;
    forall dc ensures InDc(more, dc) <= cfg.maxPerDc { assert InDc(chosen, dc) <= cfg.maxPerDc; }
    forall rack ensures InRack(more, rack) <= cfg.maxPerRack { assert InRack(chosen, rack) <= cfg.maxPerRack; }
  }

  /** The choice extends what was chosen, by nodes among the candidates, up to the count and limits. */
  lemma {:induction false} GreedySound(cfg: Config, candidates: seq<Node>, count: nat, chosen: seq<Node>)
    requires WithinLimits(cfg, chosen) && |chosen| <= count
    ensures var r := Greedy(cfg, candidates, count, chosen);
            && WithinLimits(cfg, r) && |chosen| <= |r| <= count && r[..|chosen|] == chosen
            && multiset(r) <= multiset(chosen) + multiset(candidates)
    decreases |candidates|
  {
    if candidates != [] && |chosen| < count {
      var n, rest := candidates[0], candidates[1..];
      assert candidates == [n] + rest;
      if Blocked(cfg, chosen, n) {
        GreedySound(cfg, rest, count, chosen);
      } else {
        AddUnblocked(cfg, chosen, n);
        GreedySound(cfg, rest, count, chosen + [n]);
        var r := Greedy(cfg, rest, count, chosen + [n]);
        assert r[..|chosen|] == r[..|chosen| + 1][..|chosen|];
      }
    }
  }

  /** If fewer than `count` nodes are chosen, every candidate left out is in a full datacenter or rack. */
  lemma {:induction false} GreedyMaximal(cfg: Config, candidates: seq<Node>, count: nat, chosen: seq<Node>, n: Node)
    requires WithinLimits(cfg, chosen) && |chosen| <= count
    requires n in candidates && |Greedy(cfg, candidates, count, chosen)| < count
    ensures n in Greedy(cfg, candidates, count, chosen) || Blocked(cfg, Greedy(cfg, candidates, count, chosen), n)
    decreases |candidates|
  {
    var r, c, rest := Greedy(cfg, candidates, count, chosen), candidates[0], candidates[1..];
    GreedySound(cfg, candidates, count, chosen);
    assert chosen + r[|chosen|..] == r;
    if Blocked(cfg, chosen, c) {
      if n == c {
        var dc := if n.datacenter.Some? then n.datacenter.value else "";
        var rack := if n.RackOf().Some? then n.RackOf().value else ("", 0);
        CountsGrow(chosen, r[|chosen|..], dc, rack);
      } else {
        GreedyMaximal(cfg, rest, count, chosen, n);
      }
    } else {
      AddUnblocked(cfg, chosen, c);
      if n == c {
        GreedySound(cfg, rest, count, chosen + [c]);
        assert r[|chosen|] == r[..|chosen| + 1][|chosen|];
      } else {
        GreedyMaximal(cfg, rest, count, chosen + [c], n);
      }
    }
  }

  /**
    The nodes chosen for one shard, when fewer replicas are wanted than nodes exist: no node more
    often than it is listed, never more than the limits allow, and short only if every node left
    out sits in a full datacenter or rack.
  */
  lemma SelectionSound(cfg: Config, nodes: seq<Node>, count: nat, score: Node -> real)
    requires count < |nodes|
    ensures var r := Select(cfg, nodes, count, score);
            && multiset(r) <= multiset(nodes) && |r| <= count && WithinLimits(cfg, r)
            && (|r| < count ==> forall n | n in nodes :: n in r || Blocked(cfg, r, n))
  {
    var sorted := SortByScore(nodes, score);
    SortPermutes(nodes, ByScore(score));
    GreedySound(cfg, sorted, count, []);
    var r := Greedy(cfg, sorted, count, []);
    if |r| < count {
      forall n | n in nodes ensures n in r || Blocked(cfg, r, n) {
        assert n in multiset(sorted);
        GreedyMaximal(cfg, sorted, count, [], n);
      }
    }
  }

  /**
    Every decision of SelectNodes: the eligible nodes as listed if that many replicas are wanted, and otherwise a
    selection among them within the limits that is short only if every node left out sits in a full
    datacenter or rack.
  */
  lemma DecisionSound(cfg: Config, nodes: seq<Node>, replicas: nat, score: Score, decisions: seq<Decision>, i: nat)
    requires i < |decisions| && Scored(cfg, nodes, replicas, score, decisions, i)
    ensures var eligible, r := Eligible(cfg, nodes), decisions[i].nodes;
            && decisions[i].shardIndex == i && multiset(r) <= multiset(eligible)
            && (replicas >= |eligible| ==> r == eligible)
            && (replicas < |eligible| ==> |r| <= replicas && WithinLimits(cfg, r))
            && (|r| < replicas < |eligible| ==> forall n | n in eligible :: n in r || Blocked(cfg, r, n))
  {
    var eligible := Eligible(cfg, nodes);
    var dcs: map<string, nat>, racks: map<Rack, nat> :|
      decisions[i] == Decision(i, Select(cfg, eligible, replicas, n => score(n, dcs, racks)));
    if replicas < |eligible| { SelectionSound(cfg, eligible, replicas, n => score(n, dcs, racks)); }
  }

  // ---------- the best nodes come first ----------

  ghost predicate Descending(s: seq<Node>, score: Node -> real) {
    forall i, j | 0 <= i < j < |s| :: score(s[i]) >= score(s[j])
  }

  lemma SortDescending(nodes: seq<Node>, score: Node -> real)
    ensures Descending(SortByScore(nodes, score), score)
  {
    var r := SortByScore(nodes, score);
    SortSorted(nodes, ByScore(score));
    forall i, j | 0 <= i < j < |r| ensures score(r[i]) >= score(r[j]) { assert !ByScore(score)(r[j], r[i]); }
  }

  lemma BlockedGrows(cfg: Config, chosen: seq<Node>, r: seq<Node>, n: Node)
    requires chosen <= r && Blocked(cfg, chosen, n)
    ensures Blocked(cfg, r, n)
  {
    var dc := if n.datacenter.Some? then n.datacenter.value else "";
    var rack := if n.RackOf().Some? then n.RackOf().value else ("", 0);
    assert chosen + r[|chosen|..] == r;
    CountsGrow(chosen, r[|chosen|..], dc, rack);
  }

  lemma {:induction false} GreedyBest(cfg: Config, candidates: seq<Node>, count: nat, chosen: seq<Node>, score: Node -> real,
                                      n: Node, m: Node)
    requires WithinLimits(cfg, chosen) && |chosen| <= count && Descending(candidates, score)
    requires n in candidates && n !in Greedy(cfg, candidates, count, chosen)
    requires m in Greedy(cfg, candidates, count, chosen) && m !in chosen && score(n) > score(m)
    ensures Blocked(cfg, Greedy(cfg, candidates, count, chosen), n)
    decreases |candidates|
  {
    var r, c, rest := Greedy(cfg, candidates, count, chosen), candidates[0], candidates[1..];
    assert candidates == [c] + rest;
    assert Descending(rest, score);
    GreedySound(cfg, candidates, count, chosen);
    if Blocked(cfg, chosen, c) {
      if n == c { BlockedGrows(cfg, chosen, r, n); } else { GreedyBest(cfg, rest, count, chosen, score, n, m); }
    } else {
      AddUnblocked(cfg, chosen, c);
      GreedySound(cfg, rest, count, chosen + [c]);
      assert c in r by { assert r[|chosen|] == r[..|chosen| + 1][|chosen|] == c; }
      assert m != c by { var i :| 0 <= i < |candidates| && candidates[i] == n; }
      GreedyBest(cfg, rest, count, chosen + [c], score, n, m);
    }
  }

  /** A node left out although it scores better than a chosen one sits in a full datacenter or rack. */
  lemma BetterLeftOutIsBlocked(cfg: Config, nodes: seq<Node>, count: nat, score: Node -> real, n: Node, m: Node)
    requires count < |nodes| && n in nodes
    requires n !in Select(cfg, nodes, count, score) && m in Select(cfg, nodes, count, score) && score(n) > score(m)
    ensures Blocked(cfg, Select(cfg, nodes, count, score), n)
  {
    var sorted := SortByScore(nodes, score);
    SortPermutes(nodes, ByScore(score));
    SortDescending(nodes, score);
    assert n in multiset(sorted);
    GreedyBest(cfg, sorted, count, [], score, n, m);
  }

  /** With one replica per shard and limits of at least one, exactly one listed node is chosen. */
  lemma SingleReplica(cfg: Config, nodes: seq<Node>, score: Node -> real)
    requires nodes != [] && cfg.maxPerDc > 0 && cfg.maxPerRack > 0
    ensures var r := Select(cfg, nodes, 1, score); |r| == 1 && r[0] in nodes
  {
    if |nodes| > 1 {
      var sorted := SortByScore(nodes, score);
      SortPermutes(nodes, ByScore(score));
      FirstTaken(cfg, sorted);
      assert sorted[0] in multiset(nodes);
    }
  }

  lemma FirstTaken(cfg: Config, candidates: seq<Node>)
    requires candidates != [] && cfg.maxPerDc > 0 && cfg.maxPerRack > 0
    ensures Greedy(cfg, candidates, 1, []) == [candidates[0]]
  {
    var n := candidates[0];
    assert !Blocked(cfg, [], n);
    assert [] + [n] == [n];
  }

  lemma {:induction false} EligibleMembers(cfg: Config, nodes: seq<Node>, n: Node)
    ensures n in Eligible(cfg, nodes) <==> n in nodes && (cfg.minAvailable == 0 || n.storageTotal - n.storageUsed >= cfg.minAvailable)
  {
    if nodes != [] {
      EligibleMembers(cfg, nodes[..|nodes| - 1], n);
      assert nodes == nodes[..|nodes| - 1] + [nodes[|nodes| - 1]];
    }
  }

  // ---------- the limits bind one shard's replicas, not the shards of a chunk ----------

  lemma {:induction false} AllInDc(nodes: seq<Node>, dc: string)
    requires forall n | n in nodes :: n.datacenter == Some(dc)
    ensures InDc(nodes, dc) == |nodes|
  {
    if nodes != [] { AllInDc(nodes[..|nodes| - 1], dc); }
  }

  /**
    The datacenter limit is per shard: with one replica per shard and all eligible nodes in one
    datacenter, that datacenter receives every shard, so the limit holds for the chunk exactly when
    there are no more shards than the limit.
  */
  lemma {:induction false} OneDatacenter(cfg: Config, nodes: seq<Node>, score: Score, decisions: seq<Decision>, dc: string)
    requires cfg.maxPerDc > 0 && cfg.maxPerRack > 0 && Eligible(cfg, nodes) != []
    requires forall n | n in Eligible(cfg, nodes) :: n.datacenter == Some(dc)
    requires forall i | 0 <= i < |decisions| :: Scored(cfg, nodes, 1, score, decisions, i)
    ensures InDc(Placed(decisions), dc) == |decisions|
  {
    EachPlacesOne(cfg, nodes, score, decisions);
    AllInDc(Placed(decisions), dc);
  }

  lemma ScoredPlacesOne(cfg: Config, nodes: seq<Node>, score: Score, decisions: seq<Decision>, i: nat)
    requires cfg.maxPerDc > 0 && cfg.maxPerRack > 0 && Eligible(cfg, nodes) != [] && i < |decisions|
    requires Scored(cfg, nodes, 1, score, decisions, i)
    ensures |decisions[i].nodes| == 1 && decisions[i].nodes[0] in Eligible(cfg, nodes)
  {
    var dcs: map<string, nat>, racks: map<Rack, nat> :|
      decisions[i] == Decision(i, Select(cfg, Eligible(cfg, nodes), 1, n => score(n, dcs, racks)));
    SingleReplica(cfg, Eligible(cfg, nodes), n => score(n, dcs, racks));
  }

  lemma {:induction false} EachPlacesOne(cfg: Config, nodes: seq<Node>, score: Score, decisions: seq<Decision>)
    requires cfg.maxPerDc > 0 && cfg.maxPerRack > 0 && Eligible(cfg, nodes) != []
    requires forall i | 0 <= i < |decisions| :: Scored(cfg, nodes, 1, score, decisions, i)
    ensures |Placed(decisions)| == |decisions| && forall n | n in Placed(decisions) :: n in Eligible(cfg, nodes)
    ensures forall i | 0 <= i < |decisions| :: |decisions[i].nodes| == 1 && decisions[i].nodes[0] in Eligible(cfg, nodes)
  {
    if decisions != [] {
      var last := |decisions| - 1;
      var init := decisions[..last];
      forall i | 0 <= i < last ensures Scored(cfg, nodes, 1, score, init, i) {
        assert init[..i] == decisions[..i];
        assert Scored(cfg, nodes, 1, score, decisions, i);
      }
      EachPlacesOne(cfg, nodes, score, init);
      ScoredPlacesOne(cfg, nodes, score, decisions, last);
      forall i | 0 <= i < |decisions|
        ensures |decisions[i].nodes| == 1 && decisions[i].nodes[0] in Eligible(cfg, nodes)
      {
        if i < last { assert decisions[i] == init[i]; }
      }
    }
  }

  // ---------- exactly when the limits hold for a chunk ----------

  /** What SelectNodes can decide for a chunk of k shards with one replica each. */
  ghost predicate PlacesChunk(cfg: Config, nodes: seq<Node>, k: nat, score: Score, decisions: seq<Decision>) {
    && |decisions| == (if Eligible(cfg, nodes) == [] then 0 else k)
    && forall i | 0 <= i < |decisions| :: Scored(cfg, nodes, 1, score, decisions, i)
  }

  /** No datacenter receives more shards of a chunk than its limit, whatever the nodes' own part of the score. */
  ghost predicate DcLimitKept(cfg: Config, nodes: seq<Node>, k: nat) {
    forall base, decisions, dc | PlacesChunk(cfg, nodes, k, ScoreNode(base), decisions) :: InDc(Placed(decisions), dc) <= cfg.maxPerDc
  }

  ghost predicate RackLimitKept(cfg: Config, nodes: seq<Node>, k: nat) {
    forall base, decisions, rack | PlacesChunk(cfg, nodes, k, ScoreNode(base), decisions) :: InRack(Placed(decisions), rack) <= cfg.maxPerRack
  }

  /** Enough bandwidth on some nodes to outweigh the terms for diversity of a whole chunk. */
  function Favour(good: Node -> bool, k: nat): Node -> real {
    (n: Node) => if good(n) then 176.0 + 15.0 * k as real else 100.0
  }

  /** The terms for diversity are at most the two bonuses and at least the penalties for all nodes placed. */
  lemma DiversityBound(n: Node, dcs: map<string, nat>, racks: map<Rack, nat>, placed: seq<Node>)
    requires CountsDcs(dcs, placed) && CountsRacks(racks, placed)
    ensures -15.0 * |placed| as real <= DcTerm(n, dcs) + RackTerm(n, racks) <= 75.0
  {
    var dc := if n.datacenter.Some? then n.datacenter.value else "";
    var rack := if n.RackOf().Some? then n.RackOf().value else ("", 0);
    CountsBound(placed, dc, rack);
    assert Count(dcs, dc) <= |placed| && Count(racks, rack) <= |placed|;
  }

  lemma {:induction false} UsageOf(nodes: seq<Node>) returns (dcs: map<string, nat>, racks: map<Rack, nat>)
    ensures CountsDcs(dcs, nodes) && CountsRacks(racks, nodes)
  {
    if nodes == [] {
      dcs, racks := map[], map[];
    } else {
      var n := |nodes| - 1;
      dcs, racks := UsageOf(nodes[..n]);
      BumpCounts(dcs, racks, nodes[..n], nodes[n]);
      assert nodes[..n] + [nodes[n]] == nodes;
      dcs, racks := Bump(dcs, nodes[n].datacenter), Bump(racks, nodes[n].RackOf());
    }
  }

  /** One replica goes to nodes that score better than all others, if there are any. */
  lemma FavouredFirst(cfg: Config, nodes: seq<Node>, good: Node -> bool, score: Node -> real, n: Node)
    requires n in nodes && good(n) && cfg.maxPerDc > 0 && cfg.maxPerRack > 0
    requires forall a, b | good(a) && !good(b) :: score(a) > score(b)
    ensures var r := Select(cfg, nodes, 1, score); |r| == 1 && good(r[0])
  {
    if |nodes| > 1 {
      var sorted := SortByScore(nodes, score);
      SortPermutes(nodes, ByScore(score));
      SortDescending(nodes, score);
      FirstTaken(cfg, sorted);
      assert n in multiset(sorted);
      var i :| 0 <= i < |sorted| && sorted[i] == n;
      assert score(sorted[0]) >= score(n);
    }
  }

  lemma FavouredScore(k: nat, good: Node -> bool, dcs: map<string, nat>, racks: map<Rack, nat>, placed: seq<Node>, a: Node, b: Node)
    requires CountsDcs(dcs, placed) && CountsRacks(racks, placed) && |placed| <= k && good(a) && !good(b)
    ensures ScoreNode(Favour(good, k))(a, dcs, racks) > ScoreNode(Favour(good, k))(b, dcs, racks)
  {
    DiversityBound(a, dcs, racks, placed);
    DiversityBound(b, dcs, racks, placed);
  }

  lemma FavouredNext(cfg: Config, nodes: seq<Node>, k: nat, good: Node -> bool, n: Node, placed: seq<Node>, shard: nat,
                     dcs: map<string, nat>, racks: map<Rack, nat>) returns (last: Decision)
    requires n in Eligible(cfg, nodes) && good(n) && cfg.maxPerDc > 0 && cfg.maxPerRack > 0
    requires CountsDcs(dcs, placed) && CountsRacks(racks, placed) && |placed| <= k
    ensures last == Decision(shard, Select(cfg, Eligible(cfg, nodes), 1, m => ScoreNode(Favour(good, k))(m, dcs, racks)))
    ensures |last.nodes| == 1 && good(last.nodes[0])
  {
    var score := (m: Node) => ScoreNode(Favour(good, k))(m, dcs, racks);
    forall a, b | good(a) && !good(b) ensures score(a) > score(b) { FavouredScore(k, good, dcs, racks, placed, a, b); }
    FavouredFirst(cfg, Eligible(cfg, nodes), good, score, n);
    last := Decision(shard, Select(cfg, Eligible(cfg, nodes), 1, score));
  }

  /** So all shards of a chunk, and any number of them, can end up on such nodes. */
  lemma {:induction false} FavouredChunk(cfg: Config, nodes: seq<Node>, k: nat, i: nat, good: Node -> bool, n: Node) returns (decisions: seq<Decision>)
    requires n in Eligible(cfg, nodes) && good(n) && cfg.maxPerDc > 0 && cfg.maxPerRack > 0 && i <= k
    ensures PlacesChunk(cfg, nodes, i, ScoreNode(Favour(good, k)), decisions)
    ensures |Placed(decisions)| == i && forall m | m in Placed(decisions) :: good(m)
  {
    if i == 0 {
      decisions := [];
    } else {
      decisions := FavouredChunk(cfg, nodes, k, i - 1, good, n);
      var dcs, racks := UsageOf(Placed(decisions));
      var last := FavouredNext(cfg, nodes, k, good, n, Placed(decisions), |decisions|, dcs, racks);
      ScoredAppend(cfg, nodes, 1, ScoreNode(Favour(good, k)), decisions, last, dcs, racks);
      decisions := decisions + [last];
    }
  }

  lemma {:induction false} CountsBound(nodes: seq<Node>, dc: string, rack: Rack)
    ensures InDc(nodes, dc) <= |nodes| && InRack(nodes, rack) <= |nodes|
    ensures (forall n | n in nodes :: n.datacenter.None?) ==> InDc(nodes, dc) == 0
    ensures (forall n | n in nodes :: n.RackOf().None?) ==> InRack(nodes, rack) == 0
  {
    if nodes != [] { CountsBound(nodes[..|nodes| - 1], dc, rack); }
  }

  lemma {:induction false} AllInRack(nodes: seq<Node>, rack: Rack)
    requires forall n | n in nodes :: n.RackOf() == Some(rack)
    ensures InRack(nodes, rack) == |nodes|
  {
    if nodes != [] { AllInRack(nodes[..|nodes| - 1], rack); }
  }

  /** A chunk's shards are no more than k eligible nodes. */
  lemma ChunkNodes(cfg: Config, nodes: seq<Node>, k: nat, score: Score, decisions: seq<Decision>)
    requires cfg.maxPerDc > 0 && cfg.maxPerRack > 0 && PlacesChunk(cfg, nodes, k, score, decisions)
    ensures |Placed(decisions)| <= k && forall n | n in Placed(decisions) :: n in Eligible(cfg, nodes)
  {
    if Eligible(cfg, nodes) != [] { EachPlacesOne(cfg, nodes, score, decisions); }
  }

  /**
    The limit on shards per datacenter holds for a chunk, whatever the nodes' own scores, if and only if the chunk has
    no more shards than the limit, or no eligible node states its datacenter. Then it holds under any other score too.
  */
  lemma DcLimitIff(cfg: Config, nodes: seq<Node>, k: nat)
    requires cfg.maxPerDc > 0 && cfg.maxPerRack > 0
    ensures DcLimitKept(cfg, nodes, k) <==> k <= cfg.maxPerDc || forall n | n in Eligible(cfg, nodes) :: n.datacenter.None?
    ensures DcLimitKept(cfg, nodes, k)
            ==> forall score: Score, decisions, dc | PlacesChunk(cfg, nodes, k, score, decisions) :: InDc(Placed(decisions), dc) <= cfg.maxPerDc
  {
    if k <= cfg.maxPerDc || forall n | n in Eligible(cfg, nodes) :: n.datacenter.None? {
      forall score: Score, decisions, dc | PlacesChunk(cfg, nodes, k, score, decisions) ensures InDc(Placed(decisions), dc) <= cfg.maxPerDc {
        ChunkNodes(cfg, nodes, k, score, decisions);
        CountsBound(Placed(decisions), dc, ("", 0));
      }
    } else {
      var n :| n in Eligible(cfg, nodes) && n.datacenter.Some?;
      var dc := n.datacenter.value;
      var decisions := FavouredChunk(cfg, nodes, k, k, (m: Node) => m.datacenter == Some(dc), n);
      AllInDc(Placed(decisions), dc);
    }
  }

  /** The limit on shards per rack holds for a chunk if and only if it has no more shards, or no eligible node states its rack. */
  lemma RackLimitIff(cfg: Config, nodes: seq<Node>, k: nat)
    requires cfg.maxPerDc > 0 && cfg.maxPerRack > 0
    ensures RackLimitKept(cfg, nodes, k)
            <==> k <= cfg.maxPerRack || forall n | n in Eligible(cfg, nodes) :: n.datacenter.None? || n.rack.None?
    ensures RackLimitKept(cfg, nodes, k)
            ==> forall score: Score, decisions, rack | PlacesChunk(cfg, nodes, k, score, decisions) :: InRack(Placed(decisions), rack) <= cfg.maxPerRack
  {
    if k <= cfg.maxPerRack || forall n | n in Eligible(cfg, nodes) :: n.RackOf().None? {
      forall score: Score, decisions, rack | PlacesChunk(cfg, nodes, k, score, decisions) ensures InRack(Placed(decisions), rack) <= cfg.maxPerRack {
        ChunkNodes(cfg, nodes, k, score, decisions);
        CountsBound(Placed(decisions), "", rack);
      }
    } else {
      var n :| n in Eligible(cfg, nodes) && n.RackOf().Some?;
      var rack := n.RackOf().value;
      var decisions := FavouredChunk(cfg, nodes, k, k, (m: Node) => m.RackOf() == Some(rack), n);
      AllInRack(Placed(decisions), rack);
    }
  }

  // ---------- what the diversity terms achieve ----------

  /** Each shard in a datacenter costs 10 points and the first one 50 more; each shard in a rack 5, and the first one 25 more. */
  lemma DiversityAdvantage(base: Node -> real, a: Node, b: Node, dcs: map<string, nat>, racks: map<Rack, nat>, placed: seq<Node>)
    requires CountsDcs(dcs, placed) && CountsRacks(racks, placed) && a.datacenter.Some? && b.datacenter.Some?
    ensures var x, y := InDc(placed, a.datacenter.value), InDc(placed, b.datacenter.value);
            a.rack.None? && b.rack.None? ==>
              ScoreNode(base)(a, dcs, racks) - ScoreNode(base)(b, dcs, racks)
              == base(a) - base(b) + 10.0 * (y as real - x as real) + (if x == 0 && y > 0 then 50.0 else if x > 0 && y == 0 then -50.0 else 0.0)
    ensures a.rack.Some? && b.rack.Some? && a.datacenter == b.datacenter ==>
              var x, y := InRack(placed, (a.datacenter.value, a.rack.value)), InRack(placed, (b.datacenter.value, b.rack.value));
              ScoreNode(base)(a, dcs, racks) - ScoreNode(base)(b, dcs, racks)
              == base(a) - base(b) + 5.0 * (y as real - x as real) + (if x == 0 && y > 0 then 25.0 else if x > 0 && y == 0 then -25.0 else 0.0)
  {
    assert Count(dcs, a.datacenter.value) == InDc(placed, a.datacenter.value) && Count(dcs, b.datacenter.value) == InDc(placed, b.datacenter.value);
    if a.rack.Some? && b.rack.Some? {
      var ra, rb := (a.datacenter.value, a.rack.value), (b.datacenter.value, b.rack.value);
      assert Count(racks, ra) == InRack(placed, ra) && Count(racks, rb) == InRack(placed, rb);
    }
  }

  /** One replica goes to a node with the least load, if less load always scores better. */
  lemma LeastLoaded(cfg: Config, nodes: seq<Node>, score: Node -> real, load: Node -> nat)
    requires nodes != [] && cfg.maxPerDc > 0 && cfg.maxPerRack > 0
    requires forall a, b | a in nodes && b in nodes && load(a) < load(b) :: score(a) > score(b)
    ensures var r := Select(cfg, nodes, 1, score); |r| == 1 && r[0] in nodes && forall n | n in nodes :: load(r[0]) <= load(n)
  {
    if |nodes| > 1 {
      var sorted := SortByScore(nodes, score);
      SortPermutes(nodes, ByScore(score));
      SortDescending(nodes, score);
      FirstTaken(cfg, sorted);
      assert sorted[0] in multiset(nodes);
      forall n | n in nodes ensures load(sorted[0]) <= load(n) {
        assert n in multiset(sorted);
        var i :| 0 <= i < |sorted| && sorted[i] == n;
        assert score(sorted[0]) >= score(n);
      }
    }
  }

  /** The numbers of nodes placed in the datacenters of any two listed nodes differ by at most one. */
  ghost predicate DcsBalanced(nodes: seq<Node>, placed: seq<Node>) {
    forall a, b | a in nodes && b in nodes && a.datacenter.Some? && b.datacenter.Some? ::
      InDc(placed, a.datacenter.value) <= InDc(placed, b.datacenter.value) + 1
  }

  ghost predicate RacksBalanced(nodes: seq<Node>, placed: seq<Node>) {
    forall a, b | a in nodes && b in nodes && a.RackOf().Some? && b.RackOf().Some? ::
      InRack(placed, a.RackOf().value) <= InRack(placed, b.RackOf().value) + 1
  }

  lemma PlacedNext(decisions: seq<Decision>, n: nat)
    requires n < |decisions|
    ensures Placed(decisions[..n + 1]) == Placed(decisions[..n]) + decisions[n].nodes
  {
    assert decisions[..n + 1][..n] == decisions[..n];
  }

  lemma CountsNext(placed: seq<Node>, m: Node, dc: string, rack: Rack)
    ensures InDc(placed + [m], dc) == InDc(placed, dc) + (if m.datacenter == Some(dc) then 1 else 0)
    ensures InRack(placed + [m], rack) == InRack(placed, rack) + (if m.RackOf() == Some(rack) then 1 else 0)
  {
    assert (placed + [m])[..|placed|] == placed;
  }

  function DcLoad(placed: seq<Node>): Node -> nat {
    (n: Node) => if n.datacenter.Some? then InDc(placed, n.datacenter.value) else 0
  }

  function RackLoad(placed: seq<Node>): Node -> nat {
    (n: Node) => if n.RackOf().Some? then InRack(placed, n.RackOf().value) else 0
  }

  /** The shard goes to a node whose datacenter holds the fewest shards so far. */
  lemma FewestInDc(cfg: Config, nodes: seq<Node>, base: Node -> real, decisions: seq<Decision>, i: nat)
    requires cfg.maxPerDc > 0 && cfg.maxPerRack > 0 && Eligible(cfg, nodes) != [] && i < |decisions|
    requires Scored(cfg, nodes, 1, ScoreNode(base), decisions, i)
    requires forall a, b | a in Eligible(cfg, nodes) && b in Eligible(cfg, nodes) :: base(a) == base(b)
    requires forall n | n in Eligible(cfg, nodes) :: n.datacenter.Some? && n.rack.None?
    ensures var load := DcLoad(Placed(decisions[..i]));
            && |decisions[i].nodes| == 1 && decisions[i].nodes[0] in Eligible(cfg, nodes)
            && forall n | n in Eligible(cfg, nodes) :: load(decisions[i].nodes[0]) <= load(n)
  {
    var placed, eligible := Placed(decisions[..i]), Eligible(cfg, nodes);
    var dcs: map<string, nat>, racks: map<Rack, nat> :| CountsDcs(dcs, placed) && CountsRacks(racks, placed)
      && decisions[i] == Decision(i, Select(cfg, eligible, 1, n => ScoreNode(base)(n, dcs, racks)));
    var score := (n: Node) => ScoreNode(base)(n, dcs, racks);
    forall a, b | a in eligible && b in eligible && DcLoad(placed)(a) < DcLoad(placed)(b) ensures score(a) > score(b) {
      DiversityAdvantage(base, a, b, dcs, racks, placed);
    }
    LeastLoaded(cfg, eligible, score, DcLoad(placed));
  }

  lemma FewestInRack(cfg: Config, nodes: seq<Node>, base: Node -> real, decisions: seq<Decision>, i: nat, dc: string)
    requires cfg.maxPerDc > 0 && cfg.maxPerRack > 0 && Eligible(cfg, nodes) != [] && i < |decisions|
    requires Scored(cfg, nodes, 1, ScoreNode(base), decisions, i)
    requires forall a, b | a in Eligible(cfg, nodes) && b in Eligible(cfg, nodes) :: base(a) == base(b)
    requires forall n | n in Eligible(cfg, nodes) :: n.datacenter == Some(dc) && n.rack.Some?
    ensures var load := RackLoad(Placed(decisions[..i]));
            && |decisions[i].nodes| == 1 && decisions[i].nodes[0] in Eligible(cfg, nodes)
            && forall n | n in Eligible(cfg, nodes) :: load(decisions[i].nodes[0]) <= load(n)
  {
    var placed, eligible := Placed(decisions[..i]), Eligible(cfg, nodes);
    var dcs: map<string, nat>, racks: map<Rack, nat> :| CountsDcs(dcs, placed) && CountsRacks(racks, placed)
      && decisions[i] == Decision(i, Select(cfg, eligible, 1, n => ScoreNode(base)(n, dcs, racks)));
    var score := (n: Node) => ScoreNode(base)(n, dcs, racks);
    forall a, b | a in eligible && b in eligible && RackLoad(placed)(a) < RackLoad(placed)(b) ensures score(a) > score(b) {
      DiversityAdvantage(base, a, b, dcs, racks, placed);
    }
    LeastLoaded(cfg, eligible, score, RackLoad(placed));
  }

  /**
    Between nodes with equal scores of their own and no racks, the shards of a chunk are spread evenly: at every point the
    numbers of shards in any two of the datacenters differ by at most one.
  */
  lemma {:induction false} SpreadOverDcs(cfg: Config, nodes: seq<Node>, base: Node -> real, decisions: seq<Decision>, n: nat)
    requires cfg.maxPerDc > 0 && cfg.maxPerRack > 0 && Eligible(cfg, nodes) != [] && n <= |decisions|
    requires forall i | 0 <= i < |decisions| :: Scored(cfg, nodes, 1, ScoreNode(base), decisions, i)
    requires forall a, b | a in Eligible(cfg, nodes) && b in Eligible(cfg, nodes) :: base(a) == base(b)
    requires forall m | m in Eligible(cfg, nodes) :: m.datacenter.Some? && m.rack.None?
    ensures DcsBalanced(Eligible(cfg, nodes), Placed(decisions[..n]))
  {
    if n > 0 {
      SpreadOverDcs(cfg, nodes, base, decisions, n - 1);
      FewestInDc(cfg, nodes, base, decisions, n - 1);
      DcsDecided(Eligible(cfg, nodes), decisions, n - 1);
    }
  }

  lemma DcsDecided(nodes: seq<Node>, decisions: seq<Decision>, i: nat)
    requires i < |decisions| && |decisions[i].nodes| == 1 && decisions[i].nodes[0] in nodes && DcsBalanced(nodes, Placed(decisions[..i]))
    requires forall n | n in nodes :: n.datacenter.Some? && DcLoad(Placed(decisions[..i]))(decisions[i].nodes[0]) <= DcLoad(Placed(decisions[..i]))(n)
    ensures DcsBalanced(nodes, Placed(decisions[..i + 1]))
  {
    PlacedNext(decisions, i);
    DcsNext(nodes, Placed(decisions[..i]), decisions[i].nodes[0]);
    assert decisions[i].nodes == [decisions[i].nodes[0]];
  }

  lemma DcsNext(nodes: seq<Node>, placed: seq<Node>, m: Node)
    requires DcsBalanced(nodes, placed) && m in nodes && m.datacenter.Some?
    requires forall n | n in nodes :: n.datacenter.Some? && DcLoad(placed)(m) <= DcLoad(placed)(n)
    ensures DcsBalanced(nodes, placed + [m])
  {
    forall a, b | a in nodes && b in nodes && a.datacenter.Some? && b.datacenter.Some?
      ensures InDc(placed + [m], a.datacenter.value) <= InDc(placed + [m], b.datacenter.value) + 1
    {
      CountsNext(placed, m, a.datacenter.value, ("", 0));
      CountsNext(placed, m, b.datacenter.value, ("", 0));
      assert DcLoad(placed)(m) <= DcLoad(placed)(b);
    }
  }

  /** In one datacenter with racks, they are spread evenly over the racks. */
  lemma {:induction false} SpreadOverRacks(cfg: Config, nodes: seq<Node>, base: Node -> real, decisions: seq<Decision>, n: nat, dc: string)
    requires cfg.maxPerDc > 0 && cfg.maxPerRack > 0 && Eligible(cfg, nodes) != [] && n <= |decisions|
    requires forall i | 0 <= i < |decisions| :: Scored(cfg, nodes, 1, ScoreNode(base), decisions, i)
    requires forall a, b | a in Eligible(cfg, nodes) && b in Eligible(cfg, nodes) :: base(a) == base(b)
    requires forall m | m in Eligible(cfg, nodes) :: m.datacenter == Some(dc) && m.rack.Some?
    ensures RacksBalanced(Eligible(cfg, nodes), Placed(decisions[..n]))
  {
    if n > 0 {
      SpreadOverRacks(cfg, nodes, base, decisions, n - 1, dc);
      FewestInRack(cfg, nodes, base, decisions, n - 1, dc);
      RacksDecided(Eligible(cfg, nodes), decisions, n - 1);
    }
  }

  lemma RacksDecided(nodes: seq<Node>, decisions: seq<Decision>, i: nat)
    requires i < |decisions| && |decisions[i].nodes| == 1 && decisions[i].nodes[0] in nodes && RacksBalanced(nodes, Placed(decisions[..i]))
    requires forall n | n in nodes :: n.RackOf().Some? && RackLoad(Placed(decisions[..i]))(decisions[i].nodes[0]) <= RackLoad(Placed(decisions[..i]))(n)
    ensures RacksBalanced(nodes, Placed(decisions[..i + 1]))
  {
    PlacedNext(decisions, i);
    RacksNext(nodes, Placed(decisions[..i]), decisions[i].nodes[0]);
    assert decisions[i].nodes == [decisions[i].nodes[0]];
  }

  lemma RacksNext(nodes: seq<Node>, placed: seq<Node>, m: Node)
    requires RacksBalanced(nodes, placed) && m in nodes && m.RackOf().Some?
    requires forall n | n in nodes :: n.RackOf().Some? && RackLoad(placed)(m) <= RackLoad(placed)(n)
    ensures RacksBalanced(nodes, placed + [m])
  {
    forall a, b | a in nodes && b in nodes && a.RackOf().Some? && b.RackOf().Some?
      ensures InRack(placed + [m], a.RackOf().value) <= InRack(placed + [m], b.RackOf().value) + 1
    {
      CountsNext(placed, m, "", a.RackOf().value);
      CountsNext(placed, m, "", b.RackOf().value);
      assert RackLoad(placed)(m) <= RackLoad(placed)(b);
    }
  }
}
