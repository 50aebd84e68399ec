/**
  The node table and the monitor that moves nodes between states: register, heartbeat and operator
  drain of cyxcloud-metadata/src/postgres.rs, and the four phases of the check cycle of
  cyxcloud-gateway/src/node_monitor.rs. A phase (its query and its updates) is one step with one
  clock reading; steps of other clients may happen between the phases.
*/
module Lifecycle {
  import opened Wrappers
  import opened Sequences
  import opened Orders

  /** Peer and chunk identifiers are only compared, so numbers stand for them. */
  type Peer = nat
  type ChunkId = nat

  datatype Status = Online | Offline | Recovering | Draining | Maintenance

  datatype Row = Row(status: Status, lastHeartbeat: Option<int>, firstOffline: Option<int>, changedAt: Option<int>)

  datatype Config = Config(offline: nat, drain: nat, remove: nat, quarantine: nat)

  datatype Job = Job(chunk: ChunkId, source: Peer, target: Peer, priority: int)

  /** `stored` lists the chunk locations of each node; repair jobs are never deleted. */
  datatype State = State(now: int, rows: map<Peer, Row>, stored: map<Peer, seq<ChunkId>>, jobs: seq<Job>)

  const EVACUATION_PRIORITY := 100

  /**
    `failed` holds the nodes whose database update fails; `refused` the repair jobs whose insertion
    fails; `victims` and `targets` are the orders in which the queries list the nodes.
  */
  datatype Action =
    | Register(p: Peer)
    | Heartbeat(p: Peer)
    | OperatorDrain(p: Peer)
    | Tick(d: nat)
    | Place(p: Peer, c: ChunkId)
    | Unplace(p: Peer, c: ChunkId)
    | MarkStale(failed: set<Peer>)
    | StartDraining(failed: set<Peer>, victims: seq<Peer>, targets: seq<Peer>, refused: set<(Peer, ChunkId)>)
    | Remove(failed: set<Peer>)
    | Promote(failed: set<Peer>)

  // ---------- the queries ----------

  /** t lies more than `threshold` before now. */
  predicate Before(t: Option<int>, now: int, threshold: nat) {
    t.Some? && t.value < now - threshold
  }

  predicate IsStale(cfg: Config, now: int, r: Row) {
    r.status == Online && (r.lastHeartbeat.None? || Before(r.lastHeartbeat, now, cfg.offline))
  }

  predicate IsDrainable(cfg: Config, now: int, r: Row) {
    r.status == Offline && Before(r.firstOffline, now, cfg.drain)
  }

  predicate IsRemovable(cfg: Config, now: int, r: Row) {
    (r.status == Offline || r.status == Draining) && Before(r.firstOffline, now, cfg.remove)
  }

  predicate IsRecovered(cfg: Config, now: int, r: Row) {
    r.status == Recovering && Before(r.changedAt, now, cfg.quarantine)
  }

  /** A foreign key forbids deleting a node that a repair job names. */
  predicate Referenced(jobs: seq<Job>, p: Peer) {
    exists i :: 0 <= i < |jobs| && (jobs[i].source == p || jobs[i].target == p)
  }

  // ---------- the updates ----------

  /** Inserting leaves the heartbeat empty; the conflict clause does not touch status_changed_at. */
  function Registered(now: int, old_: Option<Row>): Row {
    match old_
    case None => Row(Online, None, None, Some(now))
    case Some(r) => r.(status := Online, lastHeartbeat := Some(now), firstOffline := None)
  }

  function Beaten(now: int, r: Row): Row {
    match r.status
    case Offline => r.(status := Recovering, changedAt := Some(now), lastHeartbeat := Some(now))
    case Draining => r.(status := Recovering, changedAt := Some(now), lastHeartbeat := Some(now))
    case _ => r.(lastHeartbeat := Some(now))
  }

  function MarkedOffline(now: int, r: Row): Row {
    r.(status := Offline, changedAt := Some(now),
       firstOffline := if r.firstOffline.Some? then r.firstOffline else Some(now))
  }

  function MarkedDraining(now: int, r: Row): Row {
    r.(status := Draining, changedAt := Some(now))
  }

  function MarkedOnline(now: int, r: Row): Row {
    r.(status := Online, changedAt := Some(now), firstOffline := None, lastHeartbeat := Some(now))
  }

  // ---------- evacuation ----------

  /** The jobs for a draining node's chunks from number i on: targets in turn. */
  function JobsFrom(source: Peer, chunks: seq<ChunkId>, targets: seq<Peer>, refused: set<(Peer, ChunkId)>, i: nat): seq<Job>
    requires targets != []
    decreases |chunks| - i
  {
    if i >= |chunks| then []
    else
      var job := Job(chunks[i], source, targets[i % |targets|], EVACUATION_PRIORITY);
      (if (source, chunks[i]) in refused then [] else [job]) + JobsFrom(source, chunks, targets, refused, i + 1)
  }

  function Others(targets: seq<Peer>, source: Peer): seq<Peer> {
    if targets == [] then []
    else (if targets[0] == source then [] else [targets[0]]) + Others(targets[1..], source)
  }

  function ChunksOn(s: State, p: Peer): seq<ChunkId> {
    if p in s.stored then s.stored[p] else []
  }

  function Evacuation(s: State, p: Peer, targets: seq<Peer>, refused: set<(Peer, ChunkId)>): seq<Job> {
    var usable := Others(targets, p);
    if usable == [] then [] else JobsFrom(p, ChunksOn(s, p), usable, refused, 0)
  }

  function EvacuateAll(s: State, victims: seq<Peer>, failed: set<Peer>, targets: seq<Peer>, refused: set<(Peer, ChunkId)>): seq<Job> {
    if victims == [] then []
    else (if victims[0] in failed then [] else Evacuation(s, victims[0], targets, refused))
         + EvacuateAll(s, victims[1..], failed, targets, refused)
  }

  // ---------- steps ----------

  function Without(chunks: seq<ChunkId>, c: ChunkId): seq<ChunkId> {
    if chunks == [] then [] else (if chunks[0] == c then [] else [chunks[0]]) + Without(chunks[1..], c)
  }

  predicate Goes(cfg: Config, s: State, failed: set<Peer>, p: Peer) {
    p in s.rows && IsRemovable(cfg, s.now, s.rows[p]) && p !in failed && !Referenced(s.jobs, p)
  }

  function Next(cfg: Config, s: State, a: Action): State {
    match a
    case Register(p) =>
      s.(rows := s.rows[p := Registered(s.now, if p in s.rows then Some(s.rows[p]) else None)])
    case Heartbeat(p) => if p in s.rows then s.(rows := s.rows[p := Beaten(s.now, s.rows[p])]) else s
    case OperatorDrain(p) => if p in s.rows then s.(rows := s.rows[p := s.rows[p].(status := Draining)]) else s
    case Tick(d) => s.(now := s.now + d)
    case Place(p, c) =>
      if p in s.rows && c !in ChunksOn(s, p) then s.(stored := s.stored[p := ChunksOn(s, p) + [c]]) else s
    case Unplace(p, c) => if p in s.stored then s.(stored := s.stored[p := Without(s.stored[p], c)]) else s
    case MarkStale(failed) =>
      s.(rows := map p | p in s.rows ::
        if IsStale(cfg, s.now, s.rows[p]) && p !in failed then MarkedOffline(s.now, s.rows[p]) else s.rows[p])
    case StartDraining(failed, victims, targets, refused) =>
      s.(rows := map p | p in s.rows ::
           if IsDrainable(cfg, s.now, s.rows[p]) && p !in failed then MarkedDraining(s.now, s.rows[p]) else s.rows[p],
         jobs := s.jobs + EvacuateAll(s, victims, failed, targets, refused))
    case Remove(failed) =>
      s.(rows := map p | p in s.rows && !Goes(cfg, s, failed, p) :: s.rows[p],
         stored := map p | p in s.stored && !Goes(cfg, s, failed, p) :: s.stored[p])
    case Promote(failed) =>
      s.(rows := map p | p in s.rows ::
        if IsRecovered(cfg, s.now, s.rows[p]) && p !in failed then MarkedOnline(s.now, s.rows[p]) else s.rows[p])
  }

  /** The query results are listings, in some order, of the rows they select. */
  ghost predicate Enabled(cfg: Config, s: State, a: Action) {
    a.StartDraining? ==>
      && Lists(a.victims, set p | p in s.rows && IsDrainable(cfg, s.now, s.rows[p]))
      && Lists(a.targets, OnlineNodes(s))
  }

  function OnlineNodes(s: State): set<Peer> {
    set p | p in s.rows && s.rows[p].status == Online
  }

  ghost predicate IsRun(cfg: Config, ss: seq<State>, acts: seq<Action>) {
    && |ss| == |acts| + 1
    && ss[0].rows == map[] && ss[0].stored == map[] && ss[0].jobs == []
    && forall i {:trigger acts[i]} | 0 <= i < |acts| :: Enabled(cfg, ss[i], acts[i]) && ss[i + 1] == Next(cfg, ss[i], acts[i])
  }

  // ---------- what every row keeps ----------

  ghost predicate NotLater(t: Option<int>, now: int) { t.Some? ==> t.value <= now }

  ghost predicate RowOk(r: Row, now: int) {
    && (r.status == Online ==> r.firstOffline.None?)
    && (r.status == Offline ==> r.firstOffline.Some?)
    && (r.status == Recovering ==> r.lastHeartbeat.Some?)
    && r.status != Maintenance
    && r.changedAt.Some?
    && NotLater(r.firstOffline, now) && NotLater(r.changedAt, now) && NotLater(r.lastHeartbeat, now)
  }

  ghost predicate RowsOk(s: State) {
    forall p | p in s.rows :: RowOk(s.rows[p], s.now)
  }

  lemma StepKeepsRows(cfg: Config, s: State, a: Action)
    requires RowsOk(s)
    ensures RowsOk(Next(cfg, s, a)) && Next(cfg, s, a).now >= s.now
  {}

  lemma {:induction false} RunKeepsRows(cfg: Config, ss: seq<State>, acts: seq<Action>, n: nat)
    requires IsRun(cfg, ss, acts) && n < |ss|
    ensures RowsOk(ss[n])
  {
    if n > 0 {
      RunKeepsRows(cfg, ss, acts, n - 1);
      StepKeepsRows(cfg, ss[n - 1], acts[n - 1]);
    }
  }

  lemma {:induction false} ClockRuns(cfg: Config, ss: seq<State>, acts: seq<Action>, i: nat, j: nat)
    requires IsRun(cfg, ss, acts) && i <= j < |ss|
    ensures ss[i].now <= ss[j].now
    decreases j
  {
    if i < j {
      RunKeepsRows(cfg, ss, acts, j - 1);
      StepKeepsRows(cfg, ss[j - 1], acts[j - 1]);
      ClockRuns(cfg, ss, acts, i, j - 1);
    }
  }

  // ---------- the offline spell ----------

  /** From state k to state n the node is registered, not online, and first_offline_at stays t. */
  ghost predicate OfflineSpell(ss: seq<State>, p: Peer, t: int, k: nat, n: nat) {
    forall i | k <= i <= n && i < |ss| ::
      p in ss[i].rows && ss[i].rows[p].firstOffline == Some(t) && ss[i].rows[p].status != Online
  }

  ghost predicate WentOffline(ss: seq<State>, acts: seq<Action>, p: Peer, t: int, k: nat) {
    && 0 < k < |ss| && k <= |acts|
    && acts[k - 1].MarkStale? && ss[k].now == t
    && p in ss[k - 1].rows && ss[k - 1].rows[p].status == Online
  }

  /** How first_offline_at comes to have a value: kept, or set by the first phase on an online node. */
  lemma FirstOfflineStep(cfg: Config, s: State, a: Action, p: Peer)
    requires RowsOk(s)
    requires var u := Next(cfg, s, a); p in u.rows && u.rows[p].firstOffline.Some?
    ensures var u := Next(cfg, s, a);
            && p in s.rows && u.rows[p].status != Online
            && (|| (s.rows[p].firstOffline == u.rows[p].firstOffline && s.rows[p].status != Online)
                || (a.MarkStale? && s.rows[p].status == Online && u.rows[p].firstOffline == Some(s.now) && u.now == s.now))
  {}

  /** Whenever first_offline_at is t, the monitor took the node offline at t and it was never online since. */
  lemma {:induction false} OfflineSince(cfg: Config, ss: seq<State>, acts: seq<Action>, n: nat, p: Peer) returns (k: nat)
    requires IsRun(cfg, ss, acts) && n < |ss| && p in ss[n].rows && ss[n].rows[p].firstOffline.Some?
    ensures k <= n && WentOffline(ss, acts, p, ss[n].rows[p].firstOffline.value, k)
    ensures OfflineSpell(ss, p, ss[n].rows[p].firstOffline.value, k, n)
  {
    assert n > 0;
    var s, a := ss[n - 1], acts[n - 1];
    RunKeepsRows(cfg, ss, acts, n - 1);
    FirstOfflineStep(cfg, s, a, p);
    if s.rows[p].firstOffline == ss[n].rows[p].firstOffline && s.rows[p].status != Online {
      k := OfflineSince(cfg, ss, acts, n - 1, p);
    } else {
      k := n;
    }
  }

  /** The clock form: at every moment later than t the node was registered and not online. */
  lemma NotOnlineSince(cfg: Config, ss: seq<State>, acts: seq<Action>, n: nat, p: Peer, i: nat)
    requires IsRun(cfg, ss, acts) && i <= n < |ss| && p in ss[n].rows && ss[n].rows[p].firstOffline.Some?
    requires ss[i].now > ss[n].rows[p].firstOffline.value
    ensures p in ss[i].rows && ss[i].rows[p].status != Online
  {
    var k := OfflineSince(cfg, ss, acts, n, p);
    if i < k { ClockRuns(cfg, ss, acts, i, k); }
  }

  // ---------- removal and draining ----------

  lemma RemovedByMonitor(cfg: Config, s: State, a: Action, p: Peer)
    ensures p in s.rows && p !in Next(cfg, s, a).rows <==> a.Remove? && Goes(cfg, s, a.failed, p)
  {}

  /** A removed node was registered and not online during the whole remove threshold before. */
  lemma RemovedWasOffline(cfg: Config, ss: seq<State>, acts: seq<Action>, n: nat, p: Peer, i: nat)
    requires IsRun(cfg, ss, acts) && n < |acts| && p in ss[n].rows && p !in ss[n + 1].rows
    requires i <= n && ss[i].now >= ss[n].now - cfg.remove
    ensures p in ss[i].rows && ss[i].rows[p].status != Online
  {
    RemovedByMonitor(cfg, ss[n], acts[n], p);
    NotOnlineSince(cfg, ss, acts, n, p, i);
  }

  /** The monitor starts to drain p in this step. */
  ghost predicate Drains(cfg: Config, s: State, a: Action, p: Peer) {
    a.StartDraining? && p in s.rows && p !in a.failed && IsDrainable(cfg, s.now, s.rows[p])
  }

  lemma DrainedWasOffline(cfg: Config, ss: seq<State>, acts: seq<Action>, n: nat, p: Peer, i: nat)
    requires IsRun(cfg, ss, acts) && n < |acts| && Drains(cfg, ss[n], acts[n], p)
    requires i <= n && ss[i].now >= ss[n].now - cfg.drain
    ensures p in ss[i].rows && ss[i].rows[p].status != Online
  {
    NotOnlineSince(cfg, ss, acts, n, p, i);
  }

  /**
    A node online when a cycle starts (state i) is neither drained nor removed by a phase of that cycle
    (step n), as long as the cycle takes no longer than the threshold.
  */
  lemma CycleSparesOnline(cfg: Config, ss: seq<State>, acts: seq<Action>, i: nat, n: nat, p: Peer)
    requires IsRun(cfg, ss, acts) && i <= n < |acts| && p in ss[i].rows && ss[i].rows[p].status == Online
    ensures ss[n].now - ss[i].now <= cfg.drain ==> !Drains(cfg, ss[n], acts[n], p)
    ensures ss[n].now - ss[i].now <= cfg.remove ==> !(p in ss[n].rows && p !in ss[n + 1].rows)
  {
    if ss[n].now - ss[i].now <= cfg.drain && Drains(cfg, ss[n], acts[n], p) {
      DrainedWasOffline(cfg, ss, acts, n, p, i);
    }
    if ss[n].now - ss[i].now <= cfg.remove && p in ss[n].rows && p !in ss[n + 1].rows {
      RemovedWasOffline(cfg, ss, acts, n, p, i);
    }
  }

  // ---------- the quarantine ----------

  ghost predicate RecoveringSpell(ss: seq<State>, p: Peer, k: nat, n: nat) {
    forall i | k <= i <= n && i < |ss| :: p in ss[i].rows && ss[i].rows[p].status == Recovering
  }

  /** At state k the node has just entered quarantine, with a heartbeat. */
  ghost predicate Entered(ss: seq<State>, acts: seq<Action>, p: Peer, k: nat) {
    0 < k < |ss| && k <= |acts| && acts[k - 1] == Heartbeat(p) && p in ss[k - 1].rows && ss[k - 1].rows[p].status != Recovering
  }

  lemma RecoveringStep(cfg: Config, s: State, a: Action, p: Peer)
    requires RowsOk(s)
    requires var u := Next(cfg, s, a); p in u.rows && u.rows[p].status == Recovering
    ensures var u := Next(cfg, s, a);
            && p in s.rows
            && (|| (s.rows[p].status == Recovering && s.rows[p].changedAt == u.rows[p].changedAt)
                || (a == Heartbeat(p) && s.rows[p].status != Recovering && u.rows[p].changedAt == Some(s.now) && u.now == s.now))
  {}

  /** A recovering node entered quarantine with a heartbeat at status_changed_at and stayed in it. */
  lemma {:induction false} RecoveringSince(cfg: Config, ss: seq<State>, acts: seq<Action>, n: nat, p: Peer) returns (k: nat)
    requires IsRun(cfg, ss, acts) && n < |ss| && p in ss[n].rows && ss[n].rows[p].status == Recovering
    ensures k <= n && Entered(ss, acts, p, k) && Some(ss[k].now) == ss[n].rows[p].changedAt
    ensures RecoveringSpell(ss, p, k, n)
  {
    assert n > 0;
    RunKeepsRows(cfg, ss, acts, n - 1);
    RecoveringStep(cfg, ss[n - 1], acts[n - 1], p);
    if ss[n - 1].rows[p].status == Recovering && ss[n - 1].rows[p].changedAt == ss[n].rows[p].changedAt {
      k := RecoveringSince(cfg, ss, acts, n - 1, p);
    } else {
      k := n;
    }
  }

  /** A promotion follows an unbroken recovering spell, begun by a heartbeat and longer than the quarantine. */
  lemma PromotedAfterQuarantine(cfg: Config, ss: seq<State>, acts: seq<Action>, n: nat, p: Peer) returns (k: nat)
    requires IsRun(cfg, ss, acts) && n < |acts| && acts[n].Promote?
    requires p in ss[n].rows && p in ss[n + 1].rows && ss[n].rows[p].status != Online && ss[n + 1].rows[p].status == Online
    ensures k <= n && Entered(ss, acts, p, k) && RecoveringSpell(ss, p, k, n)
    ensures ss[n].now - ss[k].now > cfg.quarantine
  {
    k := RecoveringSince(cfg, ss, acts, n, p);
  }

  /**
    A node that entered quarantine at k and has been in it since is promoted if and only if more than the
    quarantine has passed and its update succeeds, whatever heartbeats came or did not come in between.
  */
  lemma PromotedIff(cfg: Config, ss: seq<State>, acts: seq<Action>, k: nat, n: nat, p: Peer)
    requires IsRun(cfg, ss, acts) && k <= n < |acts| && acts[n].Promote? && Entered(ss, acts, p, k) && RecoveringSpell(ss, p, k, n)
    ensures p in ss[n + 1].rows
    ensures ss[n + 1].rows[p].status == Online <==> ss[n].now - ss[k].now > cfg.quarantine && p !in acts[n].failed
  {
    var j := RecoveringSince(cfg, ss, acts, n, p);
    assert k == j;
  }

  /** A heartbeat puts a node that was offline or draining into quarantine and leaves any other status. */
  lemma HeartbeatStatus(cfg: Config, ss: seq<State>, acts: seq<Action>, n: nat, p: Peer)
    requires IsRun(cfg, ss, acts) && n < |acts| && acts[n] == Heartbeat(p) && p in ss[n].rows
    ensures p in ss[n + 1].rows && ss[n + 1].rows[p].lastHeartbeat == Some(ss[n].now)
    ensures ss[n + 1].rows[p].status == Recovering
            <==> ss[n].rows[p].status == Offline || ss[n].rows[p].status == Draining || ss[n].rows[p].status == Recovering
    ensures ss[n].rows[p].status == Online <==> ss[n + 1].rows[p].status == Online
  {
    RunKeepsRows(cfg, ss, acts, n);
  }

  ghost predicate Live(ss: seq<State>, p: Peer, n: nat) {
    n < |ss| && p in ss[n].rows && (ss[n].rows[p].status == Online || ss[n].rows[p].status == Recovering)
  }

  /** Step j takes a live node offline, or it or an operator starts to drain it. */
  ghost predicate TakenDown(ss: seq<State>, acts: seq<Action>, p: Peer, j: nat) {
    && j < |acts| && j + 1 < |ss| && (acts[j].MarkStale? || acts[j] == OperatorDrain(p))
    && Live(ss, p, j) && p in ss[j + 1].rows && (ss[j + 1].rows[p].status == Offline || ss[j + 1].rows[p].status == Draining)
  }

  lemma LiveStep(cfg: Config, ss: seq<State>, acts: seq<Action>, n: nat, p: Peer)
    requires IsRun(cfg, ss, acts) && n < |acts| && Live(ss, p, n)
    ensures Live(ss, p, n + 1) || TakenDown(ss, acts, p, n)
  {
    RunKeepsRows(cfg, ss, acts, n);
    assert ss[n + 1] == Next(cfg, ss[n], acts[n]);
  }

  lemma {:induction false} LiveUntilDown(cfg: Config, ss: seq<State>, acts: seq<Action>, k: nat, n: nat, p: Peer)
    requires IsRun(cfg, ss, acts) && k <= n < |ss| && Live(ss, p, k)
    ensures Live(ss, p, n) || exists j: nat :: k <= j < n && TakenDown(ss, acts, p, j)
    decreases n
  {
    if k < n {
      LiveUntilDown(cfg, ss, acts, k, n - 1, p);
      if Live(ss, p, n - 1) { LiveStep(cfg, ss, acts, n - 1, p); }
    }
  }

  /** A node is removed only if after each of its heartbeats something took it down again. */
  lemma RemovedSinceHeartbeat(cfg: Config, ss: seq<State>, acts: seq<Action>, h: nat, n: nat, p: Peer)
    requires IsRun(cfg, ss, acts) && h < n < |acts| && acts[h] == Heartbeat(p) && p in ss[h].rows
    requires p in ss[n].rows && p !in ss[n + 1].rows
    ensures exists j: nat :: h < j < n && TakenDown(ss, acts, p, j)
  {
    RemovedByMonitor(cfg, ss[n], acts[n], p);
    HeartbeatStatus(cfg, ss, acts, h, p);
    RunKeepsRows(cfg, ss, acts, h);
    LiveUntilDown(cfg, ss, acts, h + 1, n, p);
  }

  // ---------- the first phase, exactly ----------

  /** No registration and no heartbeat of p after step i and before step n. */
  ghost predicate Silent(acts: seq<Action>, p: Peer, i: nat, n: nat) {
    forall j | i < j < n && j < |acts| :: acts[j] != Register(p) && acts[j] != Heartbeat(p)
  }

  /** Step i inserted p. */
  ghost predicate Inserted(ss: seq<State>, acts: seq<Action>, p: Peer, i: nat) {
    i < |acts| && i < |ss| && acts[i] == Register(p) && p !in ss[i].rows
  }

  /** p was inserted before state n and has not been heard of since. */
  ghost predicate NeverHeard(ss: seq<State>, acts: seq<Action>, p: Peer, n: nat) {
    exists i: nat :: i < n && Inserted(ss, acts, p, i) && Silent(acts, p, i, n)
  }

  lemma HeartbeatStep(cfg: Config, s: State, a: Action, p: Peer)
    requires RowsOk(s) && p in Next(cfg, s, a).rows
    ensures p !in s.rows ==> a == Register(p) && Next(cfg, s, a).rows[p].lastHeartbeat.None?
    ensures p in s.rows && (a == Register(p) || a == Heartbeat(p)) ==> Next(cfg, s, a).rows[p].lastHeartbeat.Some?
    ensures p in s.rows && a != Register(p) && a != Heartbeat(p) ==>
              (Next(cfg, s, a).rows[p].lastHeartbeat.None? <==> s.rows[p].lastHeartbeat.None?)
  {}

  lemma HeardStep(ss: seq<State>, acts: seq<Action>, p: Peer, n: nat)
    requires 0 < n <= |acts| && n < |ss| && p in ss[n - 1].rows
    ensures NeverHeard(ss, acts, p, n) <==> NeverHeard(ss, acts, p, n - 1) && acts[n - 1] != Register(p) && acts[n - 1] != Heartbeat(p)
  {
    if NeverHeard(ss, acts, p, n) {
      var i: nat :| i < n && Inserted(ss, acts, p, i) && Silent(acts, p, i, n);
      assert i < n - 1 && Silent(acts, p, i, n - 1);
    }
    if NeverHeard(ss, acts, p, n - 1) && acts[n - 1] != Register(p) && acts[n - 1] != Heartbeat(p) {
      var i: nat :| i < n - 1 && Inserted(ss, acts, p, i) && Silent(acts, p, i, n - 1);
      assert Silent(acts, p, i, n);
    }
  }

  /** Over every run a registered node has no heartbeat exactly if it was inserted and never heard of since. */
  lemma {:induction false} NoHeartbeatIff(cfg: Config, ss: seq<State>, acts: seq<Action>, n: nat, p: Peer)
    requires IsRun(cfg, ss, acts) && n < |ss| && p in ss[n].rows
    ensures ss[n].rows[p].lastHeartbeat.None? <==> NeverHeard(ss, acts, p, n)
  {
    assert n > 0;
    RunKeepsRows(cfg, ss, acts, n - 1);
    HeartbeatStep(cfg, ss[n - 1], acts[n - 1], p);
    if p in ss[n - 1].rows {
      NoHeartbeatIff(cfg, ss, acts, n - 1, p);
      HeardStep(ss, acts, p, n);
    } else {
      assert Inserted(ss, acts, p, n - 1) && Silent(acts, p, n - 1, n);
    }
  }

  /**
    The first phase takes an online node offline if and only if its update succeeds and its last heartbeat
    is too old, or it was inserted and has sent none since, however short that time is.
  */
  lemma MarkedOfflineIff(cfg: Config, ss: seq<State>, acts: seq<Action>, n: nat, p: Peer)
    requires IsRun(cfg, ss, acts) && n < |acts| && acts[n].MarkStale? && p in ss[n].rows && ss[n].rows[p].status == Online
    ensures p in ss[n + 1].rows
    ensures ss[n + 1].rows[p].status == Offline <==>
            p !in acts[n].failed && (Before(ss[n].rows[p].lastHeartbeat, ss[n].now, cfg.offline) || NeverHeard(ss, acts, p, n))
  {
    NoHeartbeatIff(cfg, ss, acts, n, p);
  }

  // ---------- repair jobs hold their nodes ----------

  ghost predicate JobsNamed(s: State) {
    forall j | j in s.jobs :: j.source in s.rows && j.target in s.rows
  }

  lemma {:induction false} OthersListed(targets: seq<Peer>, source: Peer, i: nat)
    requires i < |Others(targets, source)|
    ensures Others(targets, source)[i] in targets && Others(targets, source)[i] != source
  {
    var rest := Others(targets[1..], source);
    var skip := if targets[0] == source then 0 else 1;
    if i >= skip {
      OthersListed(targets[1..], source, i - skip);
      assert Others(targets, source)[i] == rest[i - skip];
    }
  }

  /** A job of an evacuation takes a chunk of the node to a listed node other than itself. */
  ghost predicate JobFits(s: State, j: Job, targets: seq<Peer>) {
    j.chunk in ChunksOn(s, j.source) && j.target in targets && j.target != j.source && j.priority == EVACUATION_PRIORITY
  }

  lemma {:induction false} JobsFromFit(s: State, source: Peer, targets: seq<Peer>, refused: set<(Peer, ChunkId)>, i: nat)
    requires Others(targets, source) != []
    ensures var usable := Others(targets, source);
            forall j | j in JobsFrom(source, ChunksOn(s, source), usable, refused, i) :: j.source == source && JobFits(s, j, targets)
    decreases |ChunksOn(s, source)| - i
  {
    var usable := Others(targets, source);
    if i < |ChunksOn(s, source)| {
      JobsFromFit(s, source, targets, refused, i + 1);
      OthersListed(targets, source, i % |usable|);
    }
  }

  lemma EvacuationFits(s: State, p: Peer, targets: seq<Peer>, refused: set<(Peer, ChunkId)>)
    ensures forall j | j in Evacuation(s, p, targets, refused) :: j.source == p && JobFits(s, j, targets)
  {
    if Others(targets, p) != [] { JobsFromFit(s, p, targets, refused, 0); }
  }

  lemma {:induction false} EvacuateAllFits(s: State, victims: seq<Peer>, failed: set<Peer>, targets: seq<Peer>, refused: set<(Peer, ChunkId)>)
    ensures forall j | j in EvacuateAll(s, victims, failed, targets, refused) :: j.source in victims && JobFits(s, j, targets)
  {
    if victims != [] {
      EvacuationFits(s, victims[0], targets, refused);
      EvacuateAllFits(s, victims[1..], failed, targets, refused);
    }
  }

  lemma StepKeepsJobs(cfg: Config, s: State, a: Action)
    requires JobsNamed(s) && Enabled(cfg, s, a)
    ensures JobsNamed(Next(cfg, s, a)) && s.jobs <= Next(cfg, s, a).jobs
  {
    var u := Next(cfg, s, a);
    if a.StartDraining? {
      EvacuateAllFits(s, a.victims, a.failed, a.targets, a.refused);
    } else if a.Remove? {
      forall j | j in u.jobs ensures j.source in u.rows && j.target in u.rows {
        var i :| 0 <= i < |s.jobs| && s.jobs[i] == j;
        assert Referenced(s.jobs, j.source) && Referenced(s.jobs, j.target);
      }
    }
  }

  lemma {:induction false} RunKeepsJobs(cfg: Config, ss: seq<State>, acts: seq<Action>, n: nat)
    requires IsRun(cfg, ss, acts) && n < |ss|
    ensures JobsNamed(ss[n])
  {
    if n > 0 {
      RunKeepsJobs(cfg, ss, acts, n - 1);
      StepKeepsJobs(cfg, ss[n - 1], acts[n - 1]);
    }
  }

  /** A repair job is never lost, and neither its source nor its target is ever removed afterwards. */
  lemma {:induction false} JobsPinNodes(cfg: Config, ss: seq<State>, acts: seq<Action>, n: nat, m: nat, j: Job)
    requires IsRun(cfg, ss, acts) && n <= m < |ss| && j in ss[n].jobs
    ensures j in ss[m].jobs && j.source in ss[m].rows && j.target in ss[m].rows
    decreases m
  {
    RunKeepsJobs(cfg, ss, acts, m);
    if n < m {
      JobsPinNodes(cfg, ss, acts, n, m - 1, j);
      RunKeepsJobs(cfg, ss, acts, m - 1);
      StepKeepsJobs(cfg, ss[m - 1], acts[m - 1]);
    }
  }

  // ---------- what an evacuation contains ----------

  function JobsOf(jobs: seq<Job>, p: Peer): seq<Job> {
    if jobs == [] then [] else (if jobs[0].source == p then [jobs[0]] else []) + JobsOf(jobs[1..], p)
  }

  lemma {:induction false} JobsOfAppend(a: seq<Job>, b: seq<Job>, p: Peer)
    ensures JobsOf(a + b, p) == JobsOf(a, p) + JobsOf(b, p)
  {
    if a == [] {
      assert a + b == b;
    } else {
      var first := if a[0].source == p then [a[0]] else [];
      assert (a + b)[1..] == a[1..] + b && (a + b)[0] == a[0];
      JobsOfAppend(a[1..], b, p);
      assert JobsOf(a, p) == first + JobsOf(a[1..], p);
      assert JobsOf(a + b, p) == first + (JobsOf(a[1..], p) + JobsOf(b, p));
    }
  }

  lemma {:induction false} JobsOfSame(a: seq<Job>, p: Peer, q: Peer)
    requires forall j | j in a :: j.source == q
    ensures JobsOf(a, p) == if p == q then a else []
  {
    if a != [] { JobsOfSame(a[1..], p, q); }
  }

  /** The jobs created for one draining node are those of its own evacuation. */
  lemma {:induction false} EvacuateAllOf(s: State, victims: seq<Peer>, failed: set<Peer>, targets: seq<Peer>,
                                         refused: set<(Peer, ChunkId)>, p: Peer)
    requires forall i, j | 0 <= i < j < |victims| :: victims[i] != victims[j]
    ensures JobsOf(EvacuateAll(s, victims, failed, targets, refused), p)
         == if p in victims && p !in failed then Evacuation(s, p, targets, refused) else []
  {
    if victims != [] {
      var q := victims[0];
      var first := if q in failed then [] else Evacuation(s, q, targets, refused);
      var rest := EvacuateAll(s, victims[1..], failed, targets, refused);
      EvacuationFits(s, q, targets, refused);
      JobsOfSame(first, p, q);
      JobsOfAppend(first, rest, p);
      forall i, j | 0 <= i < j < |victims[1..]| ensures victims[1..][i] != victims[1..][j] {
        assert victims[1..][i] == victims[i + 1] && victims[1..][j] == victims[j + 1];
      }
      EvacuateAllOf(s, victims[1..], failed, targets, refused, p);
      assert p in victims[1..] ==> p != q;
      assert victims == [q] + victims[1..];
    }
  }

  lemma {:induction false} AllJobs(source: Peer, chunks: seq<ChunkId>, targets: seq<Peer>, i: nat)
    requires targets != [] && i <= |chunks|
    ensures var jobs := JobsFrom(source, chunks, targets, {}, i);
            |jobs| == |chunks| - i
            && forall k | 0 <= k < |jobs| :: jobs[k] == Job(chunks[i + k], source, targets[(i + k) % |targets|], EVACUATION_PRIORITY)
    decreases |chunks| - i
  {
    if i < |chunks| { AllJobs(source, chunks, targets, i + 1); }
  }

  /** The jobs a step adds. */
  function NewJobs(s: State, a: Action): seq<Job>
    requires a.StartDraining?
  {
    EvacuateAll(s, a.victims, a.failed, a.targets, a.refused)
  }

  lemma JobsAdded(cfg: Config, s: State, a: Action)
    requires a.StartDraining?
    ensures Next(cfg, s, a).jobs == s.jobs + NewJobs(s, a)
  {}

  /**
    When the inserts succeed and some node is online, the monitor gives each chunk of the draining node
    its own job, in order, with the targets in turn.
  */
  lemma EvacuationExact(cfg: Config, s: State, a: Action, p: Peer)
    requires Enabled(cfg, s, a) && Drains(cfg, s, a, p) && a.refused == {} && a.targets != []
    ensures var jobs := JobsOf(NewJobs(s, a), p); var chunks := ChunksOn(s, p);
            |jobs| == |chunks|
            && forall i | 0 <= i < |jobs| :: jobs[i] == Job(chunks[i], p, a.targets[i % |a.targets|], EVACUATION_PRIORITY)
  {
    assert p in a.victims;
    EvacuateAllOf(s, a.victims, a.failed, a.targets, a.refused, p);
    OthersAll(a.targets, p);
    AllJobs(p, ChunksOn(s, p), a.targets, 0);
  }

  lemma {:induction false} OthersAll(targets: seq<Peer>, p: Peer)
    requires p !in targets
    ensures Others(targets, p) == targets
  {
    if targets != [] { OthersAll(targets[1..], p); }
  }

  // ---------- no chunk twice, balanced targets ----------

  ghost predicate StoredOk(s: State) {
    forall p | p in s.stored :: p in s.rows && Distinct(s.stored[p])
  }

  lemma {:induction false} WithoutDistinct(chunks: seq<ChunkId>, c: ChunkId)
    requires Distinct(chunks)
    ensures Distinct(Without(chunks, c)) && forall d | d in Without(chunks, c) :: d in chunks
  {
    if chunks != [] {
      var rest := chunks[1..];
      forall i, j | 0 <= i < j < |rest| ensures rest[i] != rest[j] {
        assert rest[i] == chunks[i + 1] && rest[j] == chunks[j + 1];
      }
      WithoutDistinct(rest, c);
      assert chunks[0] !in rest;
      assert chunks == [chunks[0]] + rest;
    }
  }

  lemma AppendDistinct(chunks: seq<ChunkId>, c: ChunkId)
    ensures Distinct(chunks) && c !in chunks ==> Distinct(chunks + [c])
  {}

  lemma StepKeepsStored(cfg: Config, s: State, a: Action)
    requires StoredOk(s)
    ensures StoredOk(Next(cfg, s, a))
  {
    if a.Unplace? && a.p in s.stored {
      WithoutDistinct(s.stored[a.p], a.c);
    } else if a.Place? {
      AppendDistinct(ChunksOn(s, a.p), a.c);
    }
  }

  lemma {:induction false} RunKeepsStored(cfg: Config, ss: seq<State>, acts: seq<Action>, n: nat)
    requires IsRun(cfg, ss, acts) && n < |ss|
    ensures StoredOk(ss[n])
  {
    if n > 0 {
      RunKeepsStored(cfg, ss, acts, n - 1);
      StepKeepsStored(cfg, ss[n - 1], acts[n - 1]);
    }
  }

  /** How many of the first n chunks go to target number r, out of k targets. */
  function TurnsOf(n: nat, k: nat, r: nat): nat
    requires k > 0
  {
    if n == 0 then 0 else TurnsOf(n - 1, k, r) + (if (n - 1) % k == r then 1 else 0)
  }

  lemma {:induction false} TurnsCount(n: nat, k: nat, r: nat)
    requires r < k
    ensures TurnsOf(n, k, r) == n / k + (if r < n % k then 1 else 0)
  {
    if n > 0 {
      TurnsCount(n - 1, k, r);
      NextTurn(n - 1, k);
    }
  }

  lemma NextTurn(n: nat, k: nat)
    requires k > 0
    ensures if n % k == k - 1 then (n + 1) / k == n / k + 1 && (n + 1) % k == 0
            else (n + 1) / k == n / k && (n + 1) % k == n % k + 1
  {
    var q, r := n / k, n % k;
    assert n == k * q + r;
    if r == k - 1 {
      DivUnique(n + 1, k, q + 1, 0);
    } else {
      DivUnique(n + 1, k, q, r + 1);
    }
  }

  /** Any two targets of one evacuation get numbers of chunks that differ by at most one. */
  lemma TurnsBalanced(n: nat, k: nat, r: nat, q: nat)
    requires r < k && q < k
    ensures -1 <= TurnsOf(n, k, r) - TurnsOf(n, k, q) <= 1
  {
    TurnsCount(n, k, r);
    TurnsCount(n, k, q);
  }

  /** The jobs for target t. */
  function JobsTo(jobs: seq<Job>, t: Peer): nat {
    if jobs == [] then 0 else JobsTo(jobs[..|jobs| - 1], t) + (if jobs[|jobs| - 1].target == t then 1 else 0)
  }

  lemma {:induction false} JobsToTurns(jobs: seq<Job>, targets: seq<Peer>, r: nat)
    requires r < |targets| && (forall i, j | 0 <= i < j < |targets| :: targets[i] != targets[j])
    requires forall i | 0 <= i < |jobs| :: jobs[i].target == targets[i % |targets|]
    ensures JobsTo(jobs, targets[r]) == TurnsOf(|jobs|, |targets|, r)
  {
    if jobs != [] { JobsToTurns(jobs[..|jobs| - 1], targets, r); }
  }

  ghost predicate OneJobEach(jobs: seq<Job>, chunks: seq<ChunkId>) {
    && (forall c | c in chunks :: exists i :: 0 <= i < |jobs| && jobs[i].chunk == c)
    && (forall i, j | 0 <= i < j < |jobs| :: jobs[i].chunk != jobs[j].chunk)
  }

  /** Each stored chunk of a draining node gets exactly one job. */
  lemma EvacuationCovers(cfg: Config, ss: seq<State>, acts: seq<Action>, n: nat, p: Peer)
    requires IsRun(cfg, ss, acts) && n < |acts| && Drains(cfg, ss[n], acts[n], p) && acts[n].refused == {} && acts[n].targets != []
    ensures ss[n + 1].jobs == ss[n].jobs + NewJobs(ss[n], acts[n])
    ensures OneJobEach(JobsOf(NewJobs(ss[n], acts[n]), p), ChunksOn(ss[n], p))
  {
    EvacuationExact(cfg, ss[n], acts[n], p);
    RunKeepsStored(cfg, ss, acts, n);
    JobsAdded(cfg, ss[n], acts[n]);
    JobPerChunk(JobsOf(NewJobs(ss[n], acts[n]), p), ChunksOn(ss[n], p));
  }

  lemma JobPerChunk(jobs: seq<Job>, chunks: seq<ChunkId>)
    requires |jobs| == |chunks| && Distinct(chunks) && forall i | 0 <= i < |jobs| :: jobs[i].chunk == chunks[i]
    ensures OneJobEach(jobs, chunks)
  {
    forall c | c in chunks ensures exists i :: 0 <= i < |jobs| && jobs[i].chunk == c {
      var i :| 0 <= i < |chunks| && chunks[i] == c;
      assert jobs[i].chunk == c;
    }
  }

  /** Any two online nodes get numbers of jobs from one draining node that differ by at most one. */
  lemma EvacuationBalanced(cfg: Config, s: State, a: Action, p: Peer, t: Peer, u: Peer)
    requires Enabled(cfg, s, a) && Drains(cfg, s, a, p) && a.refused == {} && t in OnlineNodes(s) && u in OnlineNodes(s)
    ensures JobsTo(JobsOf(NewJobs(s, a), p), t) - JobsTo(JobsOf(NewJobs(s, a), p), u) <= 1
  {
    var jobs := JobsOf(NewJobs(s, a), p);
    var r :| 0 <= r < |a.targets| && a.targets[r] == t;
    var q :| 0 <= q < |a.targets| && a.targets[q] == u;
    EvacuationExact(cfg, s, a, p);
    JobsToTurns(jobs, a.targets, r);
    JobsToTurns(jobs, a.targets, q);
    TurnsBalanced(|jobs|, |a.targets|, r, q);
  }

  /**
    A node drained with a chunk to move whose job the table accepts, and a node to move it to, stays in the table for
    ever; the jobs of its other chunks may be refused.
  */
  lemma EvacuatedNeverRemoved(cfg: Config, ss: seq<State>, acts: seq<Action>, n: nat, m: nat, p: Peer, c: ChunkId)
    requires IsRun(cfg, ss, acts) && n < |acts| && Drains(cfg, ss[n], acts[n], p)
    requires OnlineNodes(ss[n]) != {} && c in ChunksOn(ss[n], p) && (p, c) !in acts[n].refused && n < m < |ss|
    ensures p in ss[m].rows
  {
    var j := AcceptedJob(cfg, ss[n], acts[n], p, c);
    JobsPinNodes(cfg, ss, acts, n + 1, m, j);
  }

  lemma AcceptedJob(cfg: Config, s: State, a: Action, p: Peer, c: ChunkId) returns (j: Job)
    requires Enabled(cfg, s, a) && Drains(cfg, s, a, p) && OnlineNodes(s) != {} && c in ChunksOn(s, p) && (p, c) !in a.refused
    ensures j in Next(cfg, s, a).jobs && j.source == p
  {
    var q :| q in OnlineNodes(s);
    assert q in a.targets;
    OthersAll(a.targets, p);
    EvacuateAllOf(s, a.victims, a.failed, a.targets, a.refused, p);
    var i :| 0 <= i < |ChunksOn(s, p)| && ChunksOn(s, p)[i] == c;
    j := JobAt(p, ChunksOn(s, p), a.targets, a.refused, 0, i);
    JobsOfMember(NewJobs(s, a), p);
    JobsAdded(cfg, s, a);
  }

  /** The job of chunk number k is among those from number i on, unless it is refused. */
  lemma {:induction false} JobAt(source: Peer, chunks: seq<ChunkId>, targets: seq<Peer>, refused: set<(Peer, ChunkId)>, i: nat, k: nat) returns (j: Job)
    requires targets != [] && i <= k < |chunks| && (source, chunks[k]) !in refused
    ensures j == Job(chunks[k], source, targets[k % |targets|], EVACUATION_PRIORITY) && j in JobsFrom(source, chunks, targets, refused, i)
    decreases k - i
  {
    if i < k {
      j := JobAt(source, chunks, targets, refused, i + 1, k);
    } else {
      j := Job(chunks[k], source, targets[k % |targets|], EVACUATION_PRIORITY);
      assert j == JobsFrom(source, chunks, targets, refused, i)[0];
    }
  }

  lemma {:induction false} JobsOfMember(jobs: seq<Job>, p: Peer)
    ensures forall j | j in JobsOf(jobs, p) :: j in jobs && j.source == p
  {
    if jobs != [] { JobsOfMember(jobs[1..], p); }
  }

  // ---------- fresh targets ----------

  /** q's heartbeat is not before `since`, or q is a new row that has not sent one yet. */
  ghost predicate FreshOrNew(ss: seq<State>, q: Peer, since: int, first: nat, m: nat) {
    m < |ss| && q in ss[m].rows &&
    match ss[m].rows[q].lastHeartbeat
    case Some(h) => h >= since
    case None => exists k :: first <= k <= m && q !in ss[k].rows
  }

  /** After the first phase at state i, every online node is fresh with respect to that phase, or new. */
  lemma {:induction false} OnlineIsFresh(cfg: Config, ss: seq<State>, acts: seq<Action>, i: nat, m: nat, q: Peer)
    requires IsRun(cfg, ss, acts) && i < m < |ss| && acts[i] == MarkStale({})
    requires q in ss[m].rows && ss[m].rows[q].status == Online
    ensures FreshOrNew(ss, q, ss[i].now - cfg.offline, i + 1, m)
    decreases m
  {
    var s, a := ss[m - 1], acts[m - 1];
    ClockRuns(cfg, ss, acts, i, m - 1);
    if m == i + 1 {
      FreshAfterMarking(cfg, s, q);
    } else if q !in s.rows {
      NewRow(cfg, s, a, q);
      assert q !in ss[m - 1].rows;
    } else if s.rows[q].status == Online {
      OnlineIsFresh(cfg, ss, acts, i, m - 1, q);
      KeepsHeartbeat(cfg, s, a, q);
    } else {
      BecomesOnline(cfg, s, a, q);
    }
  }

  lemma FreshAfterMarking(cfg: Config, s: State, q: Peer)
    requires var u := Next(cfg, s, MarkStale({})); q in u.rows && u.rows[q].status == Online
    ensures var h := Next(cfg, s, MarkStale({})).rows[q].lastHeartbeat; h.Some? && h.value >= s.now - cfg.offline
  {}

  lemma NewRow(cfg: Config, s: State, a: Action, q: Peer)
    requires q !in s.rows && q in Next(cfg, s, a).rows
    ensures Next(cfg, s, a).rows[q].lastHeartbeat == None
  {}

  lemma BecomesOnline(cfg: Config, s: State, a: Action, q: Peer)
    requires q in s.rows && s.rows[q].status != Online && q in Next(cfg, s, a).rows && Next(cfg, s, a).rows[q].status == Online
    ensures Next(cfg, s, a).rows[q].lastHeartbeat == Some(s.now)
  {}

  lemma KeepsHeartbeat(cfg: Config, s: State, a: Action, q: Peer)
    requires q in s.rows && q in Next(cfg, s, a).rows && s.rows[q].status == Online
    ensures Next(cfg, s, a).rows[q].lastHeartbeat == s.rows[q].lastHeartbeat || Next(cfg, s, a).rows[q].lastHeartbeat == Some(s.now)
  {}

  /**
    Every job the second phase of a cycle creates goes to another node that is online and whose last
    heartbeat is no older than the offline threshold before the first phase, unless the node was newly
    inserted between the two phases.
  */
  lemma EvacuationTargets(cfg: Config, ss: seq<State>, acts: seq<Action>, i: nat, n: nat, j: Job)
    requires IsRun(cfg, ss, acts) && i < n < |acts| && acts[i] == MarkStale({}) && acts[n].StartDraining?
    requires j in NewJobs(ss[n], acts[n])
    ensures j.target != j.source && j.target in OnlineNodes(ss[n]) && j.chunk in ChunksOn(ss[n], j.source)
    ensures FreshOrNew(ss, j.target, ss[i].now - cfg.offline, i + 1, n)
  {
    var s, a := ss[n], acts[n];
    EvacuateAllFits(s, a.victims, a.failed, a.targets, a.refused);
    OnlineIsFresh(cfg, ss, acts, i, n, j.target);
  }

  // ---------- a promotion needs no heartbeat after the first ----------

  /** A table with one node. */
  function Single(now: int, p: Peer, r: Row): State { State(now, map[p := r], map[], []) }

  lemma SingleMarked(cfg: Config, now: int, p: Peer, r: Row)
    requires r == Row(Online, None, None, Some(now))
    ensures Next(cfg, Single(now, p, r), MarkStale({})) == Single(now, p, MarkedOffline(now, r))
  {}

  lemma SingleBeaten(cfg: Config, now: int, p: Peer, r: Row)
    ensures Next(cfg, Single(now, p, r), Heartbeat(p)) == Single(now, p, Beaten(now, r))
  {}

  lemma SinglePromoted(cfg: Config, now: int, p: Peer, r: Row)
    requires IsRecovered(cfg, now, r)
    ensures Next(cfg, Single(now, p, r), Promote({})) == Single(now, p, MarkedOnline(now, r))
  {}

  lemma SingleRegistered(cfg: Config, now: int, p: Peer)
    ensures Next(cfg, State(now, map[], map[], []), Register(p)) == Single(now, p, Row(Online, None, None, Some(now)))
  {}

  lemma SingleTicked(cfg: Config, now: int, p: Peer, r: Row, d: nat)
    ensures Next(cfg, Single(now, p, r), Tick(d)) == Single(now + d, p, r)
  {}

  /** A recovering node is promoted even if it has been silent for the whole quarantine. */
  lemma SilentPromotion(cfg: Config, p: Peer, now: int) returns (ss: seq<State>, acts: seq<Action>)
    ensures IsRun(cfg, ss, acts) && |acts| == 5
    ensures acts[2] == Heartbeat(p) && acts[3].Tick? && acts[4] == Promote({})
    ensures p in ss[4].rows && ss[4].rows[p].status == Recovering && Before(ss[4].rows[p].lastHeartbeat, ss[4].now, cfg.quarantine)
    ensures p in ss[5].rows && ss[5].rows[p].status == Online
  {
    var r1 := Row(Online, None, None, Some(now));
    var r2 := MarkedOffline(now, r1);
    var r3 := Beaten(now, r2);
    var later := now + cfg.quarantine + 1;
    SingleRegistered(cfg, now, p);
    SingleMarked(cfg, now, p, r1);
    SingleBeaten(cfg, now, p, r2);
    SingleTicked(cfg, now, p, r3, cfg.quarantine + 1);
    SinglePromoted(cfg, later, p, r3);
    acts := [Register(p), MarkStale({}), Heartbeat(p), Tick(cfg.quarantine + 1), Promote({})];
    ss := [State(now, map[], map[], []), Single(now, p, r1), Single(now, p, r2), Single(now, p, r3), Single(later, p, r3),
           Single(later, p, MarkedOnline(later, r3))];
  }

  /** A newly inserted node has no heartbeat: unless it sends one, the next first phase takes it offline, whatever the threshold. */
  lemma {:induction false} NewNodeGoesOffline(cfg: Config, s: State, p: Peer, d: nat)
    requires p !in s.rows
    ensures var u := Next(cfg, Next(cfg, Next(cfg, s, Register(p)), Tick(d)), MarkStale({}));
            p in u.rows && u.rows[p].status == Offline && u.rows[p].firstOffline == Some(s.now + d)
  {
    var registered := Next(cfg, s, Register(p));
    var later := Next(cfg, registered, Tick(d));
    assert later.rows[p] == Row(Online, None, None, Some(s.now));
    assert IsStale(cfg, later.now, later.rows[p]);
  }
}
