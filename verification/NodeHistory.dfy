/**
  The columns of the nodes table over every run of cyxcloud-gateway/src/node_monitor.rs and the updates of
  cyxcloud-metadata/src/postgres.rs: each is determined by the latest step of a certain kind.
*/
module NodeHistory {
  import opened Wrappers
  import opened Lifecycle
  import opened Histories

  /** p is registered before and after step k. */
  ghost predicate Stays(ss: seq<State>, p: Peer, k: nat) { k + 1 < |ss| && p in ss[k].rows && p in ss[k + 1].rows }

  ghost predicate Arrives(ss: seq<State>, p: Peer, k: nat) { k + 1 < |ss| && p !in ss[k].rows && p in ss[k + 1].rows }

  ghost predicate Changes(ss: seq<State>, p: Peer, k: nat) { Stays(ss, p, k) && ss[k].rows[p].status != ss[k + 1].rows[p].status }

  // ---------- status_changed_at ----------

  /** Step k inserts p or changes its status, and is neither a registration nor an operator's drain of a known node. */
  ghost predicate Dates(ss: seq<State>, acts: seq<Action>, p: Peer, k: nat) {
    k < |acts| && (Arrives(ss, p, k) || (Changes(ss, p, k) && acts[k] != Register(p) && acts[k] != OperatorDrain(p)))
  }

  lemma DatesStep(cfg: Config, s: State, a: Action, p: Peer)
    requires RowsOk(s) && p in Next(cfg, s, a).rows
    ensures var u := Next(cfg, s, a);
            u.rows[p].changedAt == if p !in s.rows || (s.rows[p].status != u.rows[p].status && a != Register(p) && a != OperatorDrain(p))
                                   then Some(s.now) else s.rows[p].changedAt
  {}

  /** status_changed_at is the time of the latest change of status, but for registrations and operator drains of known nodes, which leave it. */
  lemma {:induction false} ChangedAtIs(cfg: Config, ss: seq<State>, acts: seq<Action>, n: nat, p: Peer, t: int)
    requires IsRun(cfg, ss, acts) && n < |ss| && p in ss[n].rows
    ensures ss[n].rows[p].changedAt == Some(t)
            <==> Latest((k: nat) => Dates(ss, acts, p, k) && ss[k].now == t, (k: nat) => Dates(ss, acts, p, k), n)
  {
    assert n > 0;
    var on, off := (k: nat) => Dates(ss, acts, p, k) && ss[k].now == t, (k: nat) => Dates(ss, acts, p, k);
    LatestNext(on, off, n - 1);
    RunKeepsRows(cfg, ss, acts, n - 1);
    assert ss[n] == Next(cfg, ss[n - 1], acts[n - 1]);
    DatesStep(cfg, ss[n - 1], acts[n - 1], p);
    if p in ss[n - 1].rows { ChangedAtIs(cfg, ss, acts, n - 1, p, t); }
  }

  // ---------- last_heartbeat ----------

  /** Step k hears of the known node p: a heartbeat, a registration, or a promotion, which counts as one. */
  ghost predicate Hears(ss: seq<State>, acts: seq<Action>, p: Peer, k: nat) {
    && k < |acts| && Stays(ss, p, k)
    && (acts[k] == Heartbeat(p) || acts[k] == Register(p) || (acts[k].Promote? && Changes(ss, p, k)))
  }

  lemma HearsStep(cfg: Config, s: State, a: Action, p: Peer)
    requires RowsOk(s) && p in Next(cfg, s, a).rows
    ensures var u := Next(cfg, s, a);
            u.rows[p].lastHeartbeat == if p !in s.rows then None
                                       else if a == Heartbeat(p) || a == Register(p) || (a.Promote? && s.rows[p].status != u.rows[p].status) then Some(s.now)
                                       else s.rows[p].lastHeartbeat
  {}

  /** last_heartbeat is the time the node was last heard of since it was inserted. */
  lemma {:induction false} LastHeartbeatIs(cfg: Config, ss: seq<State>, acts: seq<Action>, n: nat, p: Peer, t: int)
    requires IsRun(cfg, ss, acts) && n < |ss| && p in ss[n].rows
    ensures ss[n].rows[p].lastHeartbeat == Some(t)
            <==> Latest((k: nat) => Hears(ss, acts, p, k) && ss[k].now == t, (k: nat) => Hears(ss, acts, p, k) || Arrives(ss, p, k), n)
  {
    assert n > 0;
    var on, off := (k: nat) => Hears(ss, acts, p, k) && ss[k].now == t, (k: nat) => Hears(ss, acts, p, k) || Arrives(ss, p, k);
    LatestNext(on, off, n - 1);
    RunKeepsRows(cfg, ss, acts, n - 1);
    assert ss[n] == Next(cfg, ss[n - 1], acts[n - 1]);
    HearsStep(cfg, ss[n - 1], acts[n - 1], p);
    if p in ss[n - 1].rows { LastHeartbeatIs(cfg, ss, acts, n - 1, p, t); }
  }

  // ---------- first_offline_at ----------

  /** Step k takes p offline from being online. */
  ghost predicate FallsOffline(ss: seq<State>, p: Peer, k: nat) {
    Stays(ss, p, k) && ss[k].rows[p].status == Online && ss[k + 1].rows[p].status == Offline
  }

  /** After step k p is online. */
  ghost predicate ComesOnline(ss: seq<State>, p: Peer, k: nat) { k + 1 < |ss| && p in ss[k + 1].rows && ss[k + 1].rows[p].status == Online }

  lemma OfflineStep(cfg: Config, s: State, a: Action, p: Peer)
    requires RowsOk(s) && p in Next(cfg, s, a).rows
    ensures var u := Next(cfg, s, a);
            u.rows[p].firstOffline == if u.rows[p].status == Online then None
                                      else if p in s.rows && s.rows[p].status == Online && u.rows[p].status == Offline then Some(s.now)
                                      else if p in s.rows then s.rows[p].firstOffline else None
  {}

  /** first_offline_at is the time the node last fell offline, and empty once it has been online again. */
  lemma {:induction false} FirstOfflineIs(cfg: Config, ss: seq<State>, acts: seq<Action>, n: nat, p: Peer, t: int)
    requires IsRun(cfg, ss, acts) && n < |ss| && p in ss[n].rows
    ensures ss[n].rows[p].firstOffline == Some(t)
            <==> Latest((k: nat) => FallsOffline(ss, p, k) && ss[k].now == t, (k: nat) => ComesOnline(ss, p, k) || FallsOffline(ss, p, k), n)
  {
    assert n > 0;
    var on, off := (k: nat) => FallsOffline(ss, p, k) && ss[k].now == t, (k: nat) => ComesOnline(ss, p, k) || FallsOffline(ss, p, k);
    LatestNext(on, off, n - 1);
    RunKeepsRows(cfg, ss, acts, n - 1);
    assert ss[n] == Next(cfg, ss[n - 1], acts[n - 1]);
    OfflineStep(cfg, ss[n - 1], acts[n - 1], p);
    if p in ss[n - 1].rows {
      FirstOfflineIs(cfg, ss, acts, n - 1, p, t);
    } else {
      ArrivesOnline(cfg, ss[n - 1], acts[n - 1], p);
    }
  }

  lemma ArrivesOnline(cfg: Config, s: State, a: Action, p: Peer)
    requires p !in s.rows && p in Next(cfg, s, a).rows
    ensures a == Register(p) && Next(cfg, s, a).rows[p] == Row(Online, None, None, Some(s.now))
  {}

  // ---------- the transitions ----------

  /** A registered node is online after its registration and draining after an operator's drain. */
  lemma RequestedStatus(cfg: Config, ss: seq<State>, acts: seq<Action>, n: nat, p: Peer)
    requires IsRun(cfg, ss, acts) && n < |acts|
    ensures acts[n] == Register(p) ==> p in ss[n + 1].rows && ss[n + 1].rows[p].status == Online
    ensures acts[n] == OperatorDrain(p) && p in ss[n].rows ==> p in ss[n + 1].rows && ss[n + 1].rows[p].status == Draining
  {
    assert ss[n + 1] == Next(cfg, ss[n], acts[n]);
  }

  /** Nothing else changes a status but a heartbeat that starts a quarantine and the monitor's three moves. */
  lemma Transitions(cfg: Config, ss: seq<State>, acts: seq<Action>, n: nat, p: Peer)
    requires IsRun(cfg, ss, acts) && n < |acts| && Changes(ss, p, n)
    ensures var from, to := ss[n].rows[p].status, ss[n + 1].rows[p].status;
            match acts[n]
            case Register(q) => q == p && to == Online
            case OperatorDrain(q) => q == p && to == Draining
            case Heartbeat(q) => q == p && from in {Offline, Draining} && to == Recovering
            case MarkStale(failed) => p !in failed && from == Online && to == Offline
            case StartDraining(failed, _, _, _) => p !in failed && from == Offline && to == Draining
            case Promote(failed) => p !in failed && from == Recovering && to == Online
            case _ => false
  {
    assert ss[n + 1] == Next(cfg, ss[n], acts[n]);
  }

  // ---------- the phases, exactly ----------

  /** The second phase drains an offline node if and only if its update succeeds and it fell offline longer ago than the threshold. */
  lemma DrainedIff(cfg: Config, ss: seq<State>, acts: seq<Action>, n: nat, p: Peer) returns (k: nat)
    requires IsRun(cfg, ss, acts) && n < |acts| && acts[n].StartDraining? && p in ss[n].rows && ss[n].rows[p].status == Offline
    ensures k <= n && WentOffline(ss, acts, p, ss[k].now, k) && OfflineSpell(ss, p, ss[k].now, k, n)
    ensures p in ss[n + 1].rows && (ss[n + 1].rows[p].status == Draining <==> p !in acts[n].failed && ss[n].now - ss[k].now > cfg.drain)
  {
    RunKeepsRows(cfg, ss, acts, n);
    k := OfflineSince(cfg, ss, acts, n, p);
  }

  /**
    The third phase removes a node if and only if it is offline or draining, fell offline longer ago than the threshold and
    was not online since, no job names it and its deletion succeeds.
  */
  lemma RemovedIff(cfg: Config, ss: seq<State>, acts: seq<Action>, n: nat, p: Peer)
    requires IsRun(cfg, ss, acts) && n < |acts| && acts[n].Remove? && p in ss[n].rows
    ensures p !in ss[n + 1].rows
            <==> && (ss[n].rows[p].status == Offline || ss[n].rows[p].status == Draining)
                 && (exists k: nat :: k <= n && WentOffline(ss, acts, p, ss[k].now, k) && OfflineSpell(ss, p, ss[k].now, k, n) && ss[n].now - ss[k].now > cfg.remove)
                 && p !in acts[n].failed && forall j | j in ss[n].jobs :: j.source != p && j.target != p
  {
    RemovedByMonitor(cfg, ss[n], acts[n], p);
    NamedIff(ss[n].jobs, p);
    if ss[n].rows[p].firstOffline.Some? { var k := OfflineSince(cfg, ss, acts, n, p); }
  }

  lemma NamedIff(jobs: seq<Job>, p: Peer)
    ensures Referenced(jobs, p) <==> exists j :: j in jobs && (j.source == p || j.target == p)
  {
    if j :| j in jobs && (j.source == p || j.target == p) { var i :| 0 <= i < |jobs| && jobs[i] == j; }
  }

  // ---------- chunk locations ----------

  ghost predicate Located(s: State, p: Peer, c: ChunkId) { p in s.stored && c in s.stored[p] }

  /** Step k records chunk c on the registered node p. */
  ghost predicate Records(ss: seq<State>, acts: seq<Action>, p: Peer, c: ChunkId, k: nat) {
    k < |acts| && k < |ss| && acts[k] == Place(p, c) && p in ss[k].rows
  }

  /** Step k takes the record back, or removes the node. */
  ghost predicate Forgets(ss: seq<State>, acts: seq<Action>, p: Peer, c: ChunkId, k: nat) {
    k < |acts| && k + 1 < |ss| && (acts[k] == Unplace(p, c) || (p in ss[k].rows && p !in ss[k + 1].rows))
  }

  lemma {:induction false} WithoutOne(chunks: seq<ChunkId>, c: ChunkId, d: ChunkId)
    ensures d in Without(chunks, c) <==> d in chunks && d != c
  {
    if chunks != [] {
      WithoutOne(chunks[1..], c, d);
      assert chunks == [chunks[0]] + chunks[1..];
    }
  }

  lemma LocatedStep(cfg: Config, s: State, a: Action, p: Peer, c: ChunkId)
    requires StoredOk(s)
    ensures var u := Next(cfg, s, a);
            Located(u, p, c) <==> (a == Place(p, c) && p in s.rows)
                                  || (Located(s, p, c) && a != Unplace(p, c) && !(p in s.rows && p !in u.rows))
  {
    if a.Unplace? && a.p in s.stored { WithoutOne(s.stored[a.p], a.c, c); }
  }

  /** Over every run a chunk is recorded on a node if and only if a step recorded it and neither it nor the node was removed since. */
  lemma {:induction false} LocatedIff(cfg: Config, ss: seq<State>, acts: seq<Action>, n: nat, p: Peer, c: ChunkId)
    requires IsRun(cfg, ss, acts) && n < |ss|
    ensures Located(ss[n], p, c) <==> Latest((k: nat) => Records(ss, acts, p, c, k), (k: nat) => Forgets(ss, acts, p, c, k), n)
  {
    if n > 0 {
      LocatedIff(cfg, ss, acts, n - 1, p, c);
      LatestNext((k: nat) => Records(ss, acts, p, c, k), (k: nat) => Forgets(ss, acts, p, c, k), n - 1);
      RunKeepsStored(cfg, ss, acts, n - 1);
      assert ss[n] == Next(cfg, ss[n - 1], acts[n - 1]);
      LocatedStep(cfg, ss[n - 1], acts[n - 1], p, c);
    }
  }

  // ---------- which chunks get a job ----------

  lemma {:induction false} JobsFromIff(source: Peer, chunks: seq<ChunkId>, targets: seq<Peer>, refused: set<(Peer, ChunkId)>, i: nat, c: ChunkId)
    requires targets != []
    ensures (exists j :: j in JobsFrom(source, chunks, targets, refused, i) && j.chunk == c)
            <==> (source, c) !in refused && exists k :: i <= k < |chunks| && chunks[k] == c
    decreases |chunks| - i
  {
    if i < |chunks| {
      JobsFromIff(source, chunks, targets, refused, i + 1, c);
      var job := Job(chunks[i], source, targets[i % |targets|], EVACUATION_PRIORITY);
      var rest := JobsFrom(source, chunks, targets, refused, i + 1);
      assert JobsFrom(source, chunks, targets, refused, i) == (if (source, chunks[i]) in refused then [] else [job]) + rest;
      if (source, chunks[i]) !in refused { assert job in JobsFrom(source, chunks, targets, refused, i); }
      forall j | j in rest ensures j in JobsFrom(source, chunks, targets, refused, i) {}
    }
  }

  /** A drain gives a chunk of the node a job if and only if its insert is not refused and some node is online. */
  lemma EvacuatedIff(cfg: Config, s: State, a: Action, p: Peer, c: ChunkId)
    requires Enabled(cfg, s, a) && Drains(cfg, s, a, p) && p in s.stored
    ensures (exists j :: j in JobsOf(NewJobs(s, a), p) && j.chunk == c)
            <==> c in s.stored[p] && (p, c) !in a.refused && OnlineNodes(s) != {}
  {
    assert p in a.victims;
    EvacuateAllOf(s, a.victims, a.failed, a.targets, a.refused, p);
    OthersAll(a.targets, p);
    forall q | q in OnlineNodes(s) ensures q in a.targets {}
    if a.targets != [] {
      assert a.targets[0] in OnlineNodes(s);
      JobsFromIff(p, s.stored[p], a.targets, a.refused, 0, c);
      assert c in s.stored[p] <==> exists k :: 0 <= k < |s.stored[p]| && s.stored[p][k] == c;
    }
  }
}
