/**
  Quorum reads and writes: cyxcloud-metadata/src/quorum.rs. The replicas' replies, and whether the
  overall deadline passes, are parameters.
*/
module Quorum {
  import opened Wrappers
  import opened Sequences
  import Orders

  type Node = nat

  datatype Config = Config(readQuorum: nat, writeQuorum: nat, replicationFactor: nat)

  datatype QuorumError = NoNodesAvailable | Timeout | NotAchieved(got: nat, needed: nat)

  datatype NodeResult<T> = NodeResult(node: Node, reply: Option<T>)

  datatype QuorumResult<T> = QuorumResult(successes: seq<NodeResult<T>>, failures: seq<NodeResult<T>>, achieved: bool)

  const DEFAULT_CONFIG := Config(2, 2, 3)

  function Majority(n: nat): nat { n / 2 + 1 }

  function Strict(n: nat): Config { Config(Majority(n), Majority(n), n) }

  function Eventual(n: nat): Config { Config(1, 1, n) }

  function Validate(c: Config): Option<QuorumError> {
    if c.readQuorum == 0 || c.writeQuorum == 0 then Some(NotAchieved(0, 1))
    else if c.writeQuorum > c.replicationFactor then Some(NotAchieved(c.replicationFactor, c.writeQuorum))
    else None
  }

  function Min(a: nat, b: nat): nat { if a < b then a else b }

  function Replies<T>(nodes: seq<Node>, op: Node -> Option<T>): (r: seq<NodeResult<T>>)
    ensures |r| == |nodes|
  {
    seq(|nodes|, i requires 0 <= i < |nodes| => NodeResult(nodes[i], op(nodes[i])))
  }

  /** The results that are successes (or failures), in order. */
  function Select<T>(results: seq<NodeResult<T>>, success: bool): seq<NodeResult<T>> {
    if results == [] then []
    else (if results[0].reply.Some? == success then [results[0]] else []) + Select(results[1..], success)
  }

  function Aggregate<T>(quorum: nat, nodes: seq<Node>, op: Node -> Option<T>): QuorumResult<T> {
    var results := Replies(nodes, op);
    var successes := Select(results, true);
    QuorumResult(successes, Select(results, false), |successes| >= Min(quorum, |nodes|))
  }

  /** A read reports whether the quorum was reached; it is an error only without nodes or past the deadline. */
  function ReadWithQuorum<T>(c: Config, nodes: seq<Node>, op: Node -> Option<T>, late: bool): Result<QuorumResult<T>, QuorumError> {
    if nodes == [] then Err(NoNodesAvailable)
    else if late then Err(Timeout)
    else Ok(Aggregate(c.readQuorum, nodes, op))
  }

  /** A write that does not reach the quorum is an error. */
  function WriteWithQuorum<T>(c: Config, nodes: seq<Node>, op: Node -> Option<T>, late: bool): Result<QuorumResult<T>, QuorumError> {
    if nodes == [] then Err(NoNodesAvailable)
    else if late then Err(Timeout)
    else
      var r := Aggregate(c.writeQuorum, nodes, op);
      if r.achieved then Ok(r) else Err(NotAchieved(|r.successes|, Min(c.writeQuorum, |nodes|)))
  }

  // ---------- successes and failures partition the nodes ----------

  lemma {:induction false} SelectSplits<T>(results: seq<NodeResult<T>>)
    ensures multiset(Select(results, true)) + multiset(Select(results, false)) == multiset(results)
  {
    if results != [] {
      SelectSplits(results[1..]);
      assert results == [results[0]] + results[1..];
    }
  }

  lemma {:induction false} SelectKind<T>(results: seq<NodeResult<T>>, success: bool, x: NodeResult<T>)
    ensures x in Select(results, success) <==> x in results && x.reply.Some? == success
  {
    if results != [] {
      SelectKind(results[1..], success, x);
      assert results == [results[0]] + results[1..];
    }
  }

  ghost function SetOf(nodes: seq<Node>): set<Node> { set n | n in nodes }

  ghost function SuccessNodes<T>(r: QuorumResult<T>): set<Node> {
    set x: NodeResult<T> | x in r.successes :: x.node
  }

  ghost function FailureNodes<T>(r: QuorumResult<T>): set<Node> {
    set x: NodeResult<T> | x in r.failures :: x.node
  }

  ghost function Answered<T>(nodes: seq<Node>, op: Node -> Option<T>): set<Node> {
    set n | n in nodes && op(n).Some?
  }

  lemma InReplies<T>(nodes: seq<Node>, op: Node -> Option<T>, x: NodeResult<T>)
    ensures x in Replies(nodes, op) <==> x.node in nodes && x.reply == op(x.node)
  {
    if x.node in nodes && x.reply == op(x.node) {
      var i :| 0 <= i < |nodes| && nodes[i] == x.node;
      assert Replies(nodes, op)[i] == x;
    }
  }

  lemma SelectedNodes<T>(nodes: seq<Node>, op: Node -> Option<T>, success: bool, n: Node)
    ensures (exists x :: x in Select(Replies(nodes, op), success) && x.node == n) <==> n in nodes && op(n).Some? == success
  {
    var results := Replies(nodes, op);
    var x := NodeResult(n, op(n));
    InReplies(nodes, op, x);
    SelectKind(results, success, x);
    if y :| y in Select(results, success) && y.node == n {
      InReplies(nodes, op, y);
      SelectKind(results, success, y);
    }
  }

  lemma SuccessesAnswered<T>(quorum: nat, nodes: seq<Node>, op: Node -> Option<T>)
    ensures SuccessNodes(Aggregate(quorum, nodes, op)) == Answered(nodes, op)
    ensures FailureNodes(Aggregate(quorum, nodes, op)) == SetOf(nodes) - Answered(nodes, op)
  {
    var r := Aggregate(quorum, nodes, op);
    forall n: Node ensures n in SuccessNodes(r) <==> n in Answered(nodes, op) { SelectedNodes(nodes, op, true, n); }
    forall n: Node ensures n in FailureNodes(r) <==> n in SetOf(nodes) - Answered(nodes, op) { SelectedNodes(nodes, op, false, n); }
  }

  /** Successes and failures split the nodes: together all of them, and none in both. */
  lemma NodesPartitioned<T>(quorum: nat, nodes: seq<Node>, op: Node -> Option<T>)
    ensures var r := Aggregate(quorum, nodes, op);
            && SuccessNodes(r) + FailureNodes(r) == SetOf(nodes)
            && SuccessNodes(r) !! FailureNodes(r)
            && multiset(r.successes) + multiset(r.failures) == multiset(Replies(nodes, op))
  {
    SuccessesAnswered(quorum, nodes, op);
    SelectSplits(Replies(nodes, op));
  }

  lemma AnsweredNext<T>(nodes: seq<Node>, op: Node -> Option<T>)
    requires Distinct(nodes) && nodes != []
    ensures nodes[0] !in Answered(nodes[1..], op) && Distinct(nodes[1..])
    ensures Answered(nodes, op) == Answered(nodes[1..], op) + (if op(nodes[0]).Some? then {nodes[0]} else {})
  {
    assert nodes[0] !in nodes[1..];
    assert nodes == [nodes[0]] + nodes[1..];
  }

  lemma {:induction false} SelectCount<T>(nodes: seq<Node>, op: Node -> Option<T>)
    requires Distinct(nodes)
    ensures |Select(Replies(nodes, op), true)| == |Answered(nodes, op)|
  {
    if nodes == [] {
      assert Answered(nodes, op) == {};
    } else {
      var n, rest := nodes[0], nodes[1..];
      assert Replies(nodes, op)[1..] == Replies(rest, op);
      SelectCount(rest, op);
      AnsweredNext(nodes, op);
    }
  }

  // ---------- exactly what a read and a write return ----------

  /** Enough of the nodes answered: as many as the quorum, or all of them. */
  ghost predicate Reached<T>(quorum: nat, nodes: seq<Node>, op: Node -> Option<T>) {
    |Answered(nodes, op)| >= quorum || Answered(nodes, op) == SetOf(nodes)
  }

  lemma ReachedCount<T>(quorum: nat, nodes: seq<Node>, op: Node -> Option<T>)
    requires Distinct(nodes)
    ensures Aggregate(quorum, nodes, op).achieved <==> Reached(quorum, nodes, op)
    ensures |Aggregate(quorum, nodes, op).successes| == |Answered(nodes, op)| <= |nodes|
  {
    SelectCount(nodes, op);
    DistinctCount(nodes);
    Orders.SubsetSize(Answered(nodes, op), SetOf(nodes));
    if |Answered(nodes, op)| == |nodes| { SameSize(Answered(nodes, op), SetOf(nodes)); }
  }

  lemma SameSize(a: set<Node>, b: set<Node>)
    requires a <= b && |a| == |b|
    ensures a == b
  {
    if n :| n in b && n !in a { Orders.SubsetSize(a, b - {n}); }
  }

  /** A read fails without nodes or past the deadline; otherwise it tells whether enough nodes answered. */
  lemma ReadExact<T>(c: Config, nodes: seq<Node>, op: Node -> Option<T>, late: bool)
    requires Distinct(nodes)
    ensures var r := ReadWithQuorum(c, nodes, op, late);
            if nodes == [] then r == Err(NoNodesAvailable)
            else if late then r == Err(Timeout)
            else r.Ok? && SuccessNodes(r.value) == Answered(nodes, op) && (r.value.achieved <==> Reached(c.readQuorum, nodes, op))
  {
    ReachedCount(c.readQuorum, nodes, op);
    SuccessesAnswered(c.readQuorum, nodes, op);
  }

  /** A write succeeds if and only if in time enough nodes confirmed; otherwise it says how many did and how many were needed. */
  lemma WriteExact<T>(c: Config, nodes: seq<Node>, op: Node -> Option<T>, late: bool)
    requires Distinct(nodes)
    ensures var r, n := WriteWithQuorum(c, nodes, op, late), |Answered(nodes, op)|;
            && (r.Ok? <==> nodes != [] && !late && Reached(c.writeQuorum, nodes, op))
            && (r.Ok? ==> SuccessNodes(r.value) == Answered(nodes, op))
            && (nodes == [] ==> r == Err(NoNodesAvailable)) && (nodes != [] && late ==> r == Err(Timeout))
            && (nodes != [] && !late && !Reached(c.writeQuorum, nodes, op) ==>
                  r == Err(NotAchieved(n, if c.writeQuorum <= |nodes| then c.writeQuorum else |nodes|)))
  {
    ReachedCount(c.writeQuorum, nodes, op);
    SuccessesAnswered(c.writeQuorum, nodes, op);
  }

  // ---------- intersection ----------

  lemma {:induction false} DistinctCount(nodes: seq<Node>)
    requires Distinct(nodes)
    ensures |SetOf(nodes)| == |nodes|
  {
    if nodes != [] {
      var rest := nodes[1..];
      DistinctCount(rest);
      assert nodes == [nodes[0]] + rest;
      assert SetOf(nodes) == SetOf(rest) + {nodes[0]};
    } else {
      assert SetOf(nodes) == {};
    }
  }

  lemma Pigeonhole(a: set<Node>, b: set<Node>, all: set<Node>)
    requires a <= all && b <= all && |a| + |b| > |all|
    ensures a * b != {}
  {
    if a * b == {} {
      assert |a + b| == |a| + |b|;
      Orders.SubsetSize(a + b, all);
    }
  }

  /** A read may end without its quorum; then it says so. */
  predicate Achieved<T>(r: Result<QuorumResult<T>, QuorumError>) { r.Ok? && r.value.achieved }

  /** How a read and a write of a configuration must overlap on k nodes. */
  predicate Overlaps(c: Config, k: nat) {
    Min(c.readQuorum, k) + Min(c.writeQuorum, k) > k
  }

  /** An achieved read shares a replica with every acknowledged write to the same nodes. */
  lemma QuorumsMeet<T, U>(c: Config, nodes: seq<Node>, read: Node -> Option<T>, write: Node -> Option<U>)
    requires Distinct(nodes) && Overlaps(c, |nodes|)
    requires Achieved(ReadWithQuorum(c, nodes, read, false)) && WriteWithQuorum(c, nodes, write, false).Ok?
    ensures SuccessNodes(ReadWithQuorum(c, nodes, read, false).value) * SuccessNodes(WriteWithQuorum(c, nodes, write, false).value) != {}
  {
    SuccessesAnswered(c.readQuorum, nodes, read);
    SuccessesAnswered(c.writeQuorum, nodes, write);
    SelectCount(nodes, read);
    SelectCount(nodes, write);
    DistinctCount(nodes);
    Pigeonhole(Answered(nodes, read), Answered(nodes, write), SetOf(nodes));
  }

  function Only(ns: set<Node>): Node -> Option<bool> {
    n => if n in ns then Some(true) else None
  }

  /** Without the overlap condition some achieved read misses some acknowledged write altogether. */
  lemma QuorumsMayMiss(c: Config, nodes: seq<Node>) returns (read: Node -> Option<bool>, write: Node -> Option<bool>)
    requires Distinct(nodes) && nodes != [] && !Overlaps(c, |nodes|)
    ensures Achieved(ReadWithQuorum(c, nodes, read, false)) && WriteWithQuorum(c, nodes, write, false).Ok?
    ensures SuccessNodes(ReadWithQuorum(c, nodes, read, false).value) * SuccessNodes(WriteWithQuorum(c, nodes, write, false).value) == {}
  {
    var k := Min(c.readQuorum, |nodes|);
    PrefixCount(nodes, k);
    read, write := Only(SetOf(nodes[..k])), Only(SetOf(nodes[k..]));
    OnlyResult(c.readQuorum, nodes, SetOf(nodes[..k]));
    OnlyResult(c.writeQuorum, nodes, SetOf(nodes[k..]));
  }

  lemma OnlyResult(quorum: nat, nodes: seq<Node>, ns: set<Node>)
    requires Distinct(nodes) && ns <= SetOf(nodes)
    ensures SuccessNodes(Aggregate(quorum, nodes, Only(ns))) == ns
    ensures Aggregate(quorum, nodes, Only(ns)).achieved <==> |ns| >= Min(quorum, |nodes|)
  {
    assert Answered(nodes, Only(ns)) == ns;
    SelectCount(nodes, Only(ns));
    SuccessesAnswered(quorum, nodes, Only(ns));
  }

  lemma PrefixCount(nodes: seq<Node>, k: nat)
    requires Distinct(nodes) && k <= |nodes|
    ensures |SetOf(nodes[..k])| == k && |SetOf(nodes[k..])| == |nodes| - k
    ensures SetOf(nodes[..k]) * SetOf(nodes[k..]) == {} && SetOf(nodes[..k]) <= SetOf(nodes) && SetOf(nodes[k..]) <= SetOf(nodes)
  {
    DistinctCount(nodes[..k]);
    DistinctCount(nodes[k..]);
  }

  /** The strict configuration overlaps on its n replicas, and on k nodes exactly when k is below two majorities. */
  lemma StrictOverlaps(n: nat, k: nat)
    requires k > 0
    ensures Overlaps(Strict(n), k) <==> k < 2 * Majority(n)
    ensures k <= n ==> Overlaps(Strict(n), k)
    ensures n > 0 ==> Validate(Strict(n)) == None
  {}

  /** A majority is the least quorum that overlaps with itself on all n replicas. */
  lemma MajorityLeast(n: nat, q: nat)
    requires n > 0
    ensures Overlaps(Config(q, q, n), n) <==> q >= Majority(n)
    ensures Majority(n) <= n
  {}

  /** Validation asks for positive quorums and no more confirmations than replicas, and reports the first demand not met. */
  lemma ValidateExact(c: Config)
    ensures Validate(c) == None <==> 0 < c.readQuorum && 0 < c.writeQuorum <= c.replicationFactor
    ensures c.readQuorum == 0 || c.writeQuorum == 0 ==> Validate(c) == Some(NotAchieved(0, 1))
    ensures 0 < c.readQuorum && c.writeQuorum > c.replicationFactor > 0 ==> Validate(c) == Some(NotAchieved(c.replicationFactor, c.writeQuorum))
  {}

  /** Validation does not ask for an overlap: the eventual configuration passes and has none. */
  lemma ValidWithoutOverlap(n: nat)
    requires n >= 2
    ensures Validate(Eventual(n)) == None && !Overlaps(Eventual(n), n)
    ensures Validate(DEFAULT_CONFIG) == None && Overlaps(DEFAULT_CONFIG, DEFAULT_CONFIG.replicationFactor)
  {}

  // ---------- runs of versioned writes ----------

  /**
    One write: the nodes that stored it, those whose confirmation arrived, and whether the deadline
    passed. A node may store the write although its confirmation is lost.
  */
  datatype Write = Write(stored: set<Node>, confirmed: set<Node>, late: bool)

  ghost predicate IsWrite(nodes: seq<Node>, w: Write) {
    w.confirmed <= w.stored && forall n | n in w.stored :: n in nodes
  }

  /** Write number i carries version i + 1; version 0 is the empty replica. */
  function Version(ws: seq<Write>, n: Node): nat {
    if ws == [] then 0 else if n in ws[|ws| - 1].stored then |ws| else Version(ws[..|ws| - 1], n)
  }

  predicate Acknowledged(c: Config, nodes: seq<Node>, w: Write) {
    WriteWithQuorum(c, nodes, Only(w.confirmed), w.late).Ok?
  }

  /** The version of the latest acknowledged write. */
  function LatestAcknowledged(c: Config, nodes: seq<Node>, ws: seq<Write>): nat {
    if ws == [] then 0
    else if Acknowledged(c, nodes, ws[|ws| - 1]) then |ws| else LatestAcknowledged(c, nodes, ws[..|ws| - 1])
  }

  /** What a read sees: the version of each node that answers. */
  function ReadVersions(ws: seq<Write>, up: set<Node>): Node -> Option<nat> {
    n => if n in up then Some(Version(ws, n)) else None
  }

  /** A replica's version is the number of the latest write it stored, and 0 if it stored none. */
  lemma {:induction false} VersionExact(ws: seq<Write>, n: Node)
    ensures var v := Version(ws, n);
            && v <= |ws| && (v > 0 ==> n in ws[v - 1].stored) && forall i | v <= i < |ws| :: n !in ws[i].stored
  {
    if ws != [] && n !in ws[|ws| - 1].stored { VersionExact(ws[..|ws| - 1], n); }
  }

  /** The latest acknowledged version is the number of the latest write that was acknowledged, and 0 if none was. */
  lemma {:induction false} LatestExact(c: Config, nodes: seq<Node>, ws: seq<Write>)
    ensures var v := LatestAcknowledged(c, nodes, ws);
            && v <= |ws| && (v > 0 ==> Acknowledged(c, nodes, ws[v - 1])) && forall i | v <= i < |ws| :: !Acknowledged(c, nodes, ws[i])
  {
    if ws != [] && !Acknowledged(c, nodes, ws[|ws| - 1]) { LatestExact(c, nodes, ws[..|ws| - 1]); }
  }

  /**
    Over any run of versioned writes with partial failures, an achieved read contains a replica whose
    version is at least the latest acknowledged one.
  */
  lemma ReadsLatest(c: Config, nodes: seq<Node>, ws: seq<Write>, up: set<Node>) returns (n: Node)
    requires Distinct(nodes) && Overlaps(c, |nodes|) && forall i | 0 <= i < |ws| :: IsWrite(nodes, ws[i])
    requires Achieved(ReadWithQuorum(c, nodes, ReadVersions(ws, up), false)) && LatestAcknowledged(c, nodes, ws) > 0
    ensures n in SuccessNodes(ReadWithQuorum(c, nodes, ReadVersions(ws, up), false).value)
    ensures NodeResult(n, Some(Version(ws, n))) in ReadWithQuorum(c, nodes, ReadVersions(ws, up), false).value.successes
    ensures n in up && Version(ws, n) >= LatestAcknowledged(c, nodes, ws)
  {
    LatestExact(c, nodes, ws);
    var v := LatestAcknowledged(c, nodes, ws);
    var w := ws[v - 1];
    QuorumsMeet(c, nodes, ReadVersions(ws, up), Only(w.confirmed));
    n :| n in SuccessNodes(ReadWithQuorum(c, nodes, ReadVersions(ws, up), false).value)
           * SuccessNodes(WriteWithQuorum(c, nodes, Only(w.confirmed), false).value);
    SuccessesAnswered(c.writeQuorum, nodes, Only(w.confirmed));
    VersionExact(ws, n);
    SuccessesAnswered(c.readQuorum, nodes, ReadVersions(ws, up));
    InReplies(nodes, ReadVersions(ws, up), NodeResult(n, Some(Version(ws, n))));
    SelectKind(Replies(nodes, ReadVersions(ws, up)), true, NodeResult(n, Some(Version(ws, n))));
  }
}
