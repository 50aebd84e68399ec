/** The node table as the database holds it, and the monitor's cycle over it. */
module NodeTables {
  import opened Wrappers
  import opened Lifecycle
  import opened Orders

  datatype Counts = Counts(offline: nat, draining: nat, removed: nat, recovered: nat)

  /** The rows with the update applied to the nodes done so far. */
  function Updated(rows: map<Peer, Row>, done: set<Peer>, f: Row -> Row): map<Peer, Row> {
    map p | p in rows :: if p in done then f(rows[p]) else rows[p]
  }

  lemma UpdatedNext(rows: map<Peer, Row>, done: set<Peer>, f: Row -> Row, p: Peer)
    requires p in rows && p !in done
    ensures Updated(rows, done, f)[p] == rows[p]
    ensures Updated(rows, done, f)[p := f(rows[p])] == Updated(rows, done + {p}, f)
  {}

  /** The table after each set of nodes has been updated. */
  ghost function Updating(rows: map<Peer, Row>, f: Row -> Row): set<Peer> -> map<Peer, Row> {
    (done: set<Peer>) => Updated(rows, done, f)
  }

  /** One more update changes one more row. */
  ghost predicate Updates(rows: map<Peer, Row>, f: Row -> Row, after: set<Peer> -> map<Peer, Row>) {
    forall done: set<Peer>, p: Peer {:trigger after(done + {p})} | p in rows && p !in done ::
      && p in after(done) && after(done)[p] == rows[p]
      && after(done + {p}) == after(done)[p := f(rows[p])]
  }

  lemma UpdatePlan(rows: map<Peer, Row>, f: Row -> Row)
    ensures Updates(rows, f, Updating(rows, f)) && Updating(rows, f)({}) == rows
  {
    forall done: set<Peer>, p: Peer | p in rows && p !in done
      ensures var before := Updating(rows, f)(done);
              p in before && before[p] == rows[p] && Updating(rows, f)(done + {p}) == before[p := f(rows[p])]
    {
      UpdatedNext(rows, done, f, p);
    }
    assert Updated(rows, {}, f) == rows;
  }

  lemma MinusNext<V>(m: map<Peer, V>, done: set<Peer>, p: Peer)
    ensures (m - done) - {p} == m - (done + {p})
  {}

  /** The evacuation of each node. */
  ghost function Plan(s: State, online: seq<Peer>, refused: set<(Peer, ChunkId)>): Peer -> seq<Job> {
    (p: Peer) => Evacuation(s, p, online, refused)
  }

  /** Only the stored chunks matter to the plan. */
  ghost predicate Plans(plan: Peer -> seq<Job>, stored: map<Peer, seq<ChunkId>>, online: seq<Peer>, refused: set<(Peer, ChunkId)>) {
    forall s: State, p: Peer {:trigger Evacuation(s, p, online, refused)} | s.stored == stored :: plan(p) == Evacuation(s, p, online, refused)
  }

  ghost function Gathered(plan: Peer -> seq<Job>, victims: seq<Peer>, failed: set<Peer>): seq<Job> {
    if victims == [] then []
    else (if victims[0] in failed then [] else plan(victims[0])) + Gathered(plan, victims[1..], failed)
  }

  lemma GatheredNext(plan: Peer -> seq<Job>, nodes: seq<Peer>, failed: set<Peer>, i: nat, jobs: seq<Job>)
    requires i < |nodes|
    ensures (jobs + if nodes[i] in failed then [] else plan(nodes[i])) + Gathered(plan, nodes[i + 1..], failed)
         == jobs + Gathered(plan, nodes[i..], failed)
  {
    assert nodes[i..][0] == nodes[i] && nodes[i..][1..] == nodes[i + 1..];
  }

  lemma {:induction false} GatheredAll(s: State, victims: seq<Peer>, failed: set<Peer>, online: seq<Peer>, refused: set<(Peer, ChunkId)>)
    ensures Gathered(Plan(s, online, refused), victims, failed) == EvacuateAll(s, victims, failed, online, refused)
    ensures Plans(Plan(s, online, refused), s.stored, online, refused)
  {
    if victims != [] { GatheredAll(s, victims[1..], failed, online, refused); }
  }

  function StaleNodes(cfg: Config, now: int, rows: map<Peer, Row>): set<Peer> {
    set p | p in rows && IsStale(cfg, now, rows[p])
  }

  function DrainableNodes(cfg: Config, now: int, rows: map<Peer, Row>): set<Peer> {
    set p | p in rows && IsDrainable(cfg, now, rows[p])
  }

  function RemovableNodes(cfg: Config, now: int, rows: map<Peer, Row>): set<Peer> {
    set p | p in rows && IsRemovable(cfg, now, rows[p])
  }

  function RecoveredNodes(cfg: Config, now: int, rows: map<Peer, Row>): set<Peer> {
    set p | p in rows && IsRecovered(cfg, now, rows[p])
  }

  lemma StaleRows(cfg: Config, s: State, failed: set<Peer>)
    ensures Next(cfg, s, MarkStale(failed))
         == s.(rows := Updated(s.rows, StaleNodes(cfg, s.now, s.rows) - failed, r => MarkedOffline(s.now, r)))
  {}

  lemma DrainedRows(cfg: Config, s: State, failed: set<Peer>, victims: seq<Peer>, targets: seq<Peer>, refused: set<(Peer, ChunkId)>)
    ensures Next(cfg, s, StartDraining(failed, victims, targets, refused))
         == s.(rows := Updated(s.rows, DrainableNodes(cfg, s.now, s.rows) - failed, r => MarkedDraining(s.now, r)),
               jobs := s.jobs + EvacuateAll(s, victims, failed, targets, refused))
  {}

  lemma PromotedRows(cfg: Config, s: State, failed: set<Peer>)
    ensures Next(cfg, s, Promote(failed))
         == s.(rows := Updated(s.rows, RecoveredNodes(cfg, s.now, s.rows) - failed, r => MarkedOnline(s.now, r)))
  {}

  ghost function Held(jobs: seq<Job>): set<Peer> {
    (set j | j in jobs :: j.source) + (set j | j in jobs :: j.target)
  }

  lemma HeldIsReferenced(jobs: seq<Job>, p: Peer)
    ensures p in Held(jobs) <==> Referenced(jobs, p)
  {
    if Referenced(jobs, p) {
      var i :| 0 <= i < |jobs| && (jobs[i].source == p || jobs[i].target == p);
      assert jobs[i] in jobs;
    }
  }

  lemma KeptByJobs(jobs: seq<Job>, failed: set<Peer>, kept: set<Peer>, p: Peer)
    requires kept == failed + Held(jobs)
    ensures p in kept <==> p in failed || Referenced(jobs, p)
  {
    HeldIsReferenced(jobs, p);
  }

  lemma RemainingRows(cfg: Config, s: State, failed: set<Peer>, gone: set<Peer>)
    requires gone == RemovableNodes(cfg, s.now, s.rows) - (failed + Held(s.jobs))
    ensures Next(cfg, s, Remove(failed)) == s.(rows := s.rows - gone, stored := s.stored - gone)
  {
    forall p ensures p in gone <==> Goes(cfg, s, failed, p) { HeldIsReferenced(s.jobs, p); }
  }

  class NodeTable {
    var now: int
    var rows: map<Peer, Row>
    var stored: map<Peer, seq<ChunkId>>
    var jobs: seq<Job>

    ghost function Value(): State
      reads this
    {
      State(now, rows, stored, jobs)
    }

    constructor (clock: int)
      ensures Value() == State(clock, map[], map[], [])
    {
      now, rows, stored, jobs := clock, map[], map[], [];
    }

    method CreateNode(cfg: Config, p: Peer)
      modifies this
      ensures Value() == Next(cfg, old(Value()), Register(p))
    {
      rows := rows[p := Registered(now, if p in rows then Some(rows[p]) else None)];
    }

    /** An unknown peer is an error; otherwise the answer is the state the node is in now. */
    method UpdateHeartbeat(cfg: Config, p: Peer) returns (r: Option<Status>)
      modifies this`rows
      ensures Value() == Next(cfg, old(Value()), Heartbeat(p))
      ensures r == if p in old(rows) then Some(rows[p].status) else None
    {
      if p !in rows { return None; }
      rows := rows[p := Beaten(now, rows[p])];
      return Some(rows[p].status);
    }

    method DrainNode(cfg: Config, p: Peer)
      modifies this`rows
      ensures Value() == Next(cfg, old(Value()), OperatorDrain(p))
    {
      if p in rows { rows := rows[p := rows[p].(status := Draining)]; }
    }

    /** Applies an update to the listed nodes, one statement each, and counts those that succeed. */
    method UpdateEach(nodes: seq<Peer>, failed: set<Peer>, f: Row -> Row, ghost all: set<Peer>, ghost after: set<Peer> -> map<Peer, Row>)
      returns (count: nat)
      requires Lists(nodes, all) && all <= rows.Keys && after({}) == rows && Updates(rows, f, after)
      modifies this`rows
      ensures rows == after(all - failed) && count == |all - failed|
    {
      ghost var done: set<Peer> := {};
      count := 0;
      for i := 0 to |nodes|
        invariant done == Done(nodes, failed, i)
        invariant rows == after(done) && count == |done|
      {
        var p := nodes[i];
        DoneNext(nodes, all, failed, i);
        if p !in failed {
          assert after(done + {p}) == after(done)[p := f(old(rows)[p])] && p in after(done) && after(done)[p] == old(rows)[p];
          rows := rows[p := f(rows[p])];
          count := count + 1;
          done := done + {p};
        }
      }
      DoneAll(nodes, all, failed);
    }

    /** Phase 1. */
    method MarkStaleNodes(cfg: Config, failed: set<Peer>) returns (count: nat)
      modifies this`rows
      ensures Value() == Next(cfg, old(Value()), MarkStale(failed))
      ensures count == |StaleNodes(cfg, now, old(rows)) - failed|
    {
      var clock := now;
      var stale := StaleNodes(cfg, now, rows);
      var nodes := Listed(stale);
      StaleRows(cfg, Value(), failed);
      var f := r => MarkedOffline(clock, r);
      UpdatePlan(rows, f);
      count := UpdateEach(nodes, failed, f, stale, Updating(rows, f));
    }

    /** Creates the evacuation jobs of one draining node. */
    method TriggerChunkEvacuation(p: Peer, online: seq<Peer>, refused: set<(Peer, ChunkId)>) returns (created: nat, rejected: nat)
      modifies this`jobs
      ensures jobs == old(jobs) + Evacuation(Value(), p, online, refused)
      ensures created == |jobs| - |old(jobs)|
      ensures Others(online, p) != [] ==> created + rejected == |ChunksOn(Value(), p)|
    {
      created, rejected := 0, 0;
      var chunks := if p in stored then stored[p] else [];
      if chunks == [] { return; }
      var targets := Others(online, p);
      if targets == [] { return; }
      for i := 0 to |chunks|
        invariant jobs + JobsFrom(p, chunks, targets, refused, i) == old(jobs) + JobsFrom(p, chunks, targets, refused, 0)
        invariant created == |jobs| - |old(jobs)| && created + rejected == i
      {
        var target := targets[i % |targets|];
        if (p, chunks[i]) in refused {
          rejected := rejected + 1;
        } else {
          jobs := jobs + [Job(chunks[i], p, target, EVACUATION_PRIORITY)];
          created := created + 1;
        }
      }
    }

    /** Marks one node and creates its evacuation jobs, unless the update fails. */
    method DrainOne(p: Peer, failed: set<Peer>, f: Row -> Row, online: seq<Peer>, refused: set<(Peer, ChunkId)>,
                    ghost plan: Peer -> seq<Job>) returns (ok: bool)
      requires p in rows && Plans(plan, stored, online, refused)
      modifies this`rows, this`jobs
      ensures ok == (p !in failed)
      ensures rows == if ok then old(rows)[p := f(old(rows)[p])] else old(rows)
      ensures jobs == old(jobs) + if ok then plan(p) else []
    {
      ok := p !in failed;
      if ok {
        rows := rows[p := f(rows[p])];
        var created, rejected := TriggerChunkEvacuation(p, online, refused);
      }
    }

    method DrainEach(nodes: seq<Peer>, failed: set<Peer>, f: Row -> Row, online: seq<Peer>, refused: set<(Peer, ChunkId)>,
                     ghost plan: Peer -> seq<Job>, ghost all: set<Peer>, ghost after: set<Peer> -> map<Peer, Row>)
      returns (count: nat)
      requires Lists(nodes, all) && all <= rows.Keys && after({}) == rows && Updates(rows, f, after)
      requires Plans(plan, stored, online, refused)
      modifies this`rows, this`jobs
      ensures rows == after(all - failed) && count == |all - failed|
      ensures jobs == old(jobs) + Gathered(plan, nodes, failed)
    {
      ghost var done: set<Peer> := {};
      count := 0;
      for i := 0 to |nodes|
        invariant done == Done(nodes, failed, i)
        invariant rows == after(done) && count == |done| && done <= old(rows).Keys
        invariant jobs + Gathered(plan, nodes[i..], failed) == old(jobs) + Gathered(plan, nodes, failed)
      {
        var p := nodes[i];
        DoneNext(nodes, all, failed, i);
        GatheredNext(plan, nodes, failed, i, jobs);
        assert after(done + {p}) == after(done)[p := f(old(rows)[p])] && p in after(done) && after(done)[p] == old(rows)[p];
        var ok := DrainOne(p, failed, f, online, refused, plan);
        if ok {
          count := count + 1;
          done := done + {p};
        }
      }
      assert nodes[|nodes|..] == [];
      DoneAll(nodes, all, failed);
    }

    /** Phase 2. The nodes and the evacuation targets come in the order the queries list them. */
    method StartDrainingNodes(cfg: Config, failed: set<Peer>, refused: set<(Peer, ChunkId)>)
      returns (count: nat, nodes: seq<Peer>, online: seq<Peer>)
      modifies this`rows, this`jobs
      ensures Lists(nodes, DrainableNodes(cfg, now, old(rows))) && Lists(online, OnlineNodes(old(Value())))
      ensures Value() == Next(cfg, old(Value()), StartDraining(failed, nodes, online, refused))
      ensures count == |DrainableNodes(cfg, now, old(rows)) - failed|
    {
      var clock := now;
      var drainable := DrainableNodes(cfg, now, rows);
      nodes := Listed(drainable);
      online := Listed(set p | p in rows && rows[p].status == Online);
      DrainedRows(cfg, Value(), failed, nodes, online, refused);
      ghost var plan := Plan(Value(), online, refused);
      GatheredAll(Value(), nodes, failed, online, refused);
      var f := r => MarkedDraining(clock, r);
      UpdatePlan(rows, f);
      count := DrainEach(nodes, failed, f, online, refused, plan, drainable, Updating(rows, f));
    }

    /** Deletes the listed nodes; the deletes of the nodes kept fail. */
    method DeleteEach(nodes: seq<Peer>, failed: set<Peer>, ghost all: set<Peer>, ghost kept: set<Peer>) returns (count: nat)
      requires Lists(nodes, all) && kept == failed + Held(jobs)
      modifies this`rows, this`stored
      ensures rows == old(rows) - (all - kept) && stored == old(stored) - (all - kept)
      ensures count == |all - kept|
    {
      ghost var done: set<Peer> := {};
      count := 0;
      for i := 0 to |nodes|
        invariant done == Done(nodes, kept, i)
        invariant rows == old(rows) - done && stored == old(stored) - done && count == |done|
      {
        var p := nodes[i];
        DoneNext(nodes, all, kept, i);
        KeptByJobs(jobs, failed, kept, p);
        if p !in failed && !Referenced(jobs, p) {
          MinusNext(old(rows), done, p);
          MinusNext(old(stored), done, p);
          rows := rows - {p};
          stored := stored - {p};
          count := count + 1;
          done := done + {p};
        }
      }
      DoneAll(nodes, all, kept);
    }

    /** Phase 3: a delete fails for the nodes in `failed` and for those a repair job names. */
    method RemoveNodes(cfg: Config, failed: set<Peer>) returns (count: nat)
      modifies this`rows, this`stored
      ensures Value() == Next(cfg, old(Value()), Remove(failed))
      ensures count == |RemovableNodes(cfg, now, old(rows)) - (failed + Held(jobs))|
    {
      var removable := RemovableNodes(cfg, now, rows);
      var nodes := Listed(removable);
      ghost var kept := failed + Held(jobs);
      RemainingRows(cfg, Value(), failed, removable - kept);
      count := DeleteEach(nodes, failed, removable, kept);
    }

    /** Phase 4. */
    method PromoteRecovered(cfg: Config, failed: set<Peer>) returns (count: nat)
      modifies this`rows
      ensures Value() == Next(cfg, old(Value()), Promote(failed))
      ensures count == |RecoveredNodes(cfg, now, old(rows)) - failed|
    {
      var clock := now;
      var recovered := RecoveredNodes(cfg, now, rows);
      var nodes := Listed(recovered);
      PromotedRows(cfg, Value(), failed);
      var f := r => MarkedOnline(clock, r);
      UpdatePlan(rows, f);
      count := UpdateEach(nodes, failed, f, recovered, Updating(rows, f));
    }

    /** One cycle: the four phases in order, with the clock moving on between them. */
    method RunCheckCycle(cfg: Config, failed: set<Peer>, refused: set<(Peer, ChunkId)>, waits: (nat, nat, nat))
      returns (counts: Counts, victims: seq<Peer>, online: seq<Peer>)
      modifies this
      ensures IsCycle(cfg, old(Value()), failed, refused, waits, victims, online, counts, Value())
    {
      ghost var s0 := Value();
      var stale := MarkStaleNodes(cfg, failed);
      Wait(cfg, waits.0);
      ghost var s1 := Value();
      var draining;
      draining, victims, online := StartDrainingNodes(cfg, failed, refused);
      Wait(cfg, waits.1);
      ghost var s2 := Value();
      var removed := RemoveNodes(cfg, failed);
      Wait(cfg, waits.2);
      ghost var s3 := Value();
      var recovered := PromoteRecovered(cfg, failed);
      counts := Counts(stale, draining, removed, recovered);
      assert s1 == AfterMarking(cfg, s0, failed, waits.0);
      assert s2 == AfterDraining(cfg, s1, failed, victims, online, refused, waits.1);
      assert s3 == AfterRemoving(cfg, s2, failed, waits.2);
    }

    method Wait(cfg: Config, d: nat)
      modifies this`now
      ensures Value() == Next(cfg, old(Value()), Tick(d))
    {
      now := now + d;
    }
  }

  ghost function AfterMarking(cfg: Config, s: State, failed: set<Peer>, wait: nat): State {
    Next(cfg, Next(cfg, s, MarkStale(failed)), Tick(wait))
  }

  ghost function AfterDraining(cfg: Config, s: State, failed: set<Peer>, victims: seq<Peer>, online: seq<Peer>,
                               refused: set<(Peer, ChunkId)>, wait: nat): State {
    Next(cfg, Next(cfg, s, StartDraining(failed, victims, online, refused)), Tick(wait))
  }

  ghost function AfterRemoving(cfg: Config, s: State, failed: set<Peer>, wait: nat): State {
    Next(cfg, Next(cfg, s, Remove(failed)), Tick(wait))
  }

  /** A cycle from s to `end`: each phase acts on what the earlier ones left, and the counts say how many nodes it moved. */
  ghost predicate IsCycle(cfg: Config, s: State, failed: set<Peer>, refused: set<(Peer, ChunkId)>, waits: (nat, nat, nat),
                          victims: seq<Peer>, online: seq<Peer>, counts: Counts, end: State) {
    var s1 := AfterMarking(cfg, s, failed, waits.0);
    var s2 := AfterDraining(cfg, s1, failed, victims, online, refused, waits.1);
    var s3 := AfterRemoving(cfg, s2, failed, waits.2);
    && Lists(victims, DrainableNodes(cfg, s1.now, s1.rows)) && Lists(online, OnlineNodes(s1))
    && counts.offline == |StaleNodes(cfg, s.now, s.rows) - failed|
    && counts.draining == |DrainableNodes(cfg, s1.now, s1.rows) - failed|
    && counts.removed == |RemovableNodes(cfg, s2.now, s2.rows) - (failed + Held(s2.jobs))|
    && counts.recovered == |RecoveredNodes(cfg, s3.now, s3.rows) - failed|
    && end == Next(cfg, s3, Promote(failed))
  }
}
