/**
  Payment epochs over every run, with database errors and restarts anywhere: how often a node is
  slashed, when a check opens the next epoch, and which errors stop the epochs for good.
*/
module EpochFaults {
  import opened Wrappers
  import opened Epochs

  // ---------- slashing ----------

  /** Step i of the run adds a slashing row for node id in epoch e: it was down too long by then, and no error stops the check before it. */
  ghost predicate SlashStep(cfg: Config, ss: seq<State>, acts: seq<Action>, i: nat, id: Id, e: nat) {
    && i < |acts| && i < |ss| && acts[i].Check? && Ended(ss[i]) && ss[i].current == e
    && id in ss[i].nodes && DownTooLong(cfg, ss, acts, i, id, e)
    && !acts[i].fault.BeforeSlashing? && (acts[i].fault.InSlashing? ==> id in acts[i].fault.done)
  }

  ghost function SlashSteps(cfg: Config, ss: seq<State>, acts: seq<Action>, n: nat, id: Id, e: nat): nat {
    if n == 0 then 0
    else SlashSteps(cfg, ss, acts, n - 1, id, e) + (if SlashStep(cfg, ss, acts, n - 1, id, e) then 1 else 0)
  }

  lemma PartSlashed(cfg: Config, s: State, done: set<Id>, id: Id, e: nat)
    requires done <= OverdueNodes(cfg, s)
    ensures Slashes(Slashed(s, done), id, e) == Slashes(s, id, e) + (if e == s.current && id in done then 1 else 0)
    ensures id in done ==> Overdue(cfg, s, id, s.current)
  {
    assert id in done ==> (id, s.current) in KeysOf(done, s.current);
  }

  lemma SettledSlashes(s: State, fault: Fault)
    ensures Settled(s, fault).slashes == s.slashes
  {}

  lemma CheckSlashes(cfg: Config, s: State, fault: Fault, id: Id, e: nat)
    requires fault.InSlashing? ==> fault.done <= OverdueNodes(cfg, s)
    ensures Slashes(Checked(cfg, s, fault), id, e) == Slashes(s, id, e)
              + (if && Ended(s) && s.current == e && Overdue(cfg, s, id, e) && !fault.BeforeSlashing?
                    && (fault.InSlashing? ==> id in fault.done) then 1 else 0)
  {
    if fault.InSlashing? {
      PartSlashed(cfg, s, fault.done, id, e);
    } else {
      SlashedCount(cfg, s, id, e);
      SettledSlashes(SlashedAll(cfg, s), fault);
    }
  }

  lemma StepSlashes(cfg: Config, ss: seq<State>, acts: seq<Action>, n: nat, id: Id, e: nat)
    requires IsRun(cfg, ss, acts) && n < |acts| && id in ss[n].nodes && id in ss[n + 1].nodes
    ensures Slashes(ss[n + 1], id, e) == Slashes(ss[n], id, e) + (if SlashStep(cfg, ss, acts, n, id, e) then 1 else 0)
  {
    var s, a := ss[n], acts[n];
    assert ss[n + 1] == Next(cfg, s, a) && Enabled(cfg, s, a);
    OverdueIff(cfg, ss, acts, n, id, e);
    match a
    case Check(fault) => CheckSlashes(cfg, s, fault, id, e);
    case Leave(other) => assert (id, e).0 == id;
    case _ =>
  }

  lemma {:induction false} NoSlashBefore(cfg: Config, ss: seq<State>, acts: seq<Action>, n: nat, id: Id, e: nat)
    requires IsRun(cfg, ss, acts) && n < |ss| && id !in ss[n].used
    ensures SlashSteps(cfg, ss, acts, n, id, e) == 0
  {
    if n > 0 {
      RunLinked(cfg, ss, acts, n - 1);
      StepLinked(cfg, ss[n - 1], acts[n - 1]);
      NoSlashBefore(cfg, ss, acts, n - 1, id, e);
      assert (id, e).0 == id;
    }
  }

  lemma NewNodeSlashes(cfg: Config, s: State, a: Action, id: Id, e: nat)
    requires Linked(s) && id !in s.nodes && id in Next(cfg, s, a).nodes
    ensures id !in s.used && Slashes(Next(cfg, s, a), id, e) == 0 && !a.Check?
  {
    NewNode(cfg, s, a, id);
    assert (id, e).0 == id;
  }

  /** Over every run a registered node's slashing rows of an epoch are the checks that reached it while it was offline too long. */
  lemma {:induction false} SlashesCounted(cfg: Config, ss: seq<State>, acts: seq<Action>, n: nat, id: Id, e: nat)
    requires IsRun(cfg, ss, acts) && n < |ss| && id in ss[n].nodes
    ensures Slashes(ss[n], id, e) == SlashSteps(cfg, ss, acts, n, id, e)
  {
    assert n > 0;
    RunLinked(cfg, ss, acts, n - 1);
    if id in ss[n - 1].nodes {
      SlashesCounted(cfg, ss, acts, n - 1, id, e);
      StepSlashes(cfg, ss, acts, n - 1, id, e);
    } else {
      NewNodeSlashes(cfg, ss[n - 1], acts[n - 1], id, e);
      NoSlashBefore(cfg, ss, acts, n - 1, id, e);
    }
  }

  ghost predicate SlashedBy(cfg: Config, ss: seq<State>, acts: seq<Action>, n: nat, id: Id, e: nat) {
    exists i: nat :: i < n && SlashStep(cfg, ss, acts, i, id, e)
  }

  ghost predicate SlashedAgain(cfg: Config, ss: seq<State>, acts: seq<Action>, n: nat, id: Id, e: nat) {
    exists j: nat :: j < n && SlashStep(cfg, ss, acts, j, id, e) && SlashedBy(cfg, ss, acts, j, id, e)
  }

  lemma {:induction false} OnceOrMore(cfg: Config, ss: seq<State>, acts: seq<Action>, n: nat, id: Id, e: nat)
    ensures SlashSteps(cfg, ss, acts, n, id, e) > 0 <==> SlashedBy(cfg, ss, acts, n, id, e)
    ensures SlashSteps(cfg, ss, acts, n, id, e) > 1 <==> SlashedAgain(cfg, ss, acts, n, id, e)
  {
    if n > 0 {
      OnceOrMore(cfg, ss, acts, n - 1, id, e);
      if SlashStep(cfg, ss, acts, n - 1, id, e) {
        assert SlashedBy(cfg, ss, acts, n, id, e);
      }
    }
  }

  /** A registered node is slashed more than once for an epoch if and only if two checks of that epoch reached it offline too long. */
  lemma SlashedTwiceIff(cfg: Config, ss: seq<State>, acts: seq<Action>, n: nat, id: Id, e: nat)
    requires IsRun(cfg, ss, acts) && n < |ss| && id in ss[n].nodes
    ensures Slashes(ss[n], id, e) > 1 <==> SlashedAgain(cfg, ss, acts, n, id, e)
  {
    SlashesCounted(cfg, ss, acts, n, id, e);
    OnceOrMore(cfg, ss, acts, n, id, e);
  }

  // ---------- opening the next epoch ----------

  /** The epochs in the table are 1 to their number, and the daemon is in one of them or in none. */
  ghost predicate Contiguous(s: State) {
    && (forall e :: e in s.epochs <==> 1 <= e <= |s.epochs|)
    && (s.current != 0 ==> s.current in s.epochs && s.start.Some?)
  }

  lemma AdvanceContiguous(s: State)
    requires Contiguous(s) && s.current != 0
    ensures Contiguous(Advanced(s)) && Contiguous(Created(s))
    ensures s.current + 1 in s.epochs <==> s.current < |s.epochs|
  {
    if s.current + 1 !in s.epochs {
      assert s.current == |s.epochs|;
      assert |Created(s).epochs| == |s.epochs| + 1;
    } else {
      assert |Created(s).epochs| == |s.epochs|;
    }
  }

  lemma FinalizeContiguous(s: State)
    requires Contiguous(s)
    ensures Contiguous(Finalized(s)) && |Finalized(s).epochs| == |s.epochs|
  {
    assert |s.epochs.Keys| == |s.epochs| && |Finalized(s).epochs.Keys| == |Finalized(s).epochs|;
  }

  lemma CheckContiguous(cfg: Config, s: State, fault: Fault)
    requires Contiguous(s)
    ensures Contiguous(Checked(cfg, s, fault))
  {
    if Ended(s) && !fault.BeforeSlashing? && !fault.InSlashing? {
      var slashed := SlashedAll(cfg, s);
      FinalizeContiguous(slashed);
      AdvanceContiguous(Finalized(slashed));
    }
  }

  lemma FirstContiguous(s: State)
    requires Contiguous(s) && 1 !in s.epochs
    ensures s.epochs == map[] && Contiguous(Idle(WithFirst(s))) && |WithFirst(s).epochs| == 1
  {
    assert |s.epochs| == 0;
  }

  lemma StepContiguous(cfg: Config, s: State, a: Action)
    requires Contiguous(s) && Enabled(cfg, s, a)
    ensures Contiguous(Next(cfg, s, a))
  {
    match a
    case Check(fault) => CheckContiguous(cfg, s, fault);
    case Restart(resume, fault) => if 1 !in s.epochs { FirstContiguous(s); }
    case _ =>
  }

  lemma {:induction false} RunContiguous(cfg: Config, ss: seq<State>, acts: seq<Action>, n: nat)
    requires IsRun(cfg, ss, acts) && n < |ss|
    ensures Contiguous(ss[n])
  {
    if n > 0 {
      RunContiguous(cfg, ss, acts, n - 1);
      StepContiguous(cfg, ss[n - 1], acts[n - 1]);
    }
  }

  /** The daemon is in the latest epoch of the table. */
  predicate InLatest(s: State) { s.current != 0 && s.current == |s.epochs| }

  /**
    Over every run a step of the daemon opens the next epoch, the number after its own, if and only if it
    is a check without error, the epoch has lasted long enough and it is the latest in the table.
  */
  lemma OpensNextIff(cfg: Config, ss: seq<State>, acts: seq<Action>, n: nat)
    requires IsRun(cfg, ss, acts) && n < |acts| && acts[n].Check?
    ensures ss[n + 1].current == ss[n].current || ss[n + 1].current == ss[n].current + 1
    ensures ss[n + 1].current == ss[n].current + 1 <==> Ended(ss[n]) && acts[n].fault == NoFault && InLatest(ss[n])
  {
    RunContiguous(cfg, ss, acts, n);
    CheckCurrent(cfg, ss[n], acts[n].fault);
    assert ss[n + 1] == Next(cfg, ss[n], acts[n]);
  }

  lemma CheckCurrent(cfg: Config, s: State, fault: Fault)
    requires Contiguous(s)
    ensures Checked(cfg, s, fault).current == s.current + (if Ended(s) && fault == NoFault && InLatest(s) then 1 else 0)
  {
    if Ended(s) {
      AdvanceContiguous(s);
      if !fault.BeforeSlashing? && !fault.InSlashing? { SettledCurrent(SlashedAll(cfg, s), fault); }
    }
  }

  lemma SettledCurrent(s: State, fault: Fault)
    requires !fault.BeforeSlashing? && !fault.InSlashing?
    ensures Settled(s, fault).current == s.current + (if fault == NoFault && s.current + 1 !in s.epochs then 1 else 0)
  {
    assert Finalized(s).epochs.Keys == s.epochs.Keys;
  }

  /** How each step leaves or reaches the latest epoch. */
  ghost predicate StaysInLatest(s: State, a: Action) {
    match a
    case Check(fault) => InLatest(s) && !(Ended(s) && fault.BeforeInitializing?)
    case Restart(resume, fault) =>
      !fault.BeforeQuery? && (match resume case Some(e) => e == |s.epochs| case None => s.epochs == map[] && fault.Starts?)
    case _ => InLatest(s)
  }

  lemma CheckInLatest(cfg: Config, s: State, fault: Fault)
    requires Contiguous(s)
    ensures InLatest(Checked(cfg, s, fault)) <==> InLatest(s) && !(Ended(s) && fault.BeforeInitializing?)
  {
    if Ended(s) && !fault.BeforeSlashing? && !fault.InSlashing? {
      var slashed := SlashedAll(cfg, s);
      FinalizeContiguous(slashed);
      var paid := Finalized(slashed);
      AdvanceContiguous(paid);
      if paid.current + 1 !in paid.epochs { assert |Created(paid).epochs| == |paid.epochs| + 1; }
    }
  }

  /** Over every run: after a step the daemon is in the latest epoch if and only if the step keeps or puts it there. */
  lemma InLatestIff(cfg: Config, ss: seq<State>, acts: seq<Action>, n: nat)
    requires IsRun(cfg, ss, acts) && n < |acts|
    ensures InLatest(ss[n + 1]) <==> StaysInLatest(ss[n], acts[n])
  {
    RunContiguous(cfg, ss, acts, n);
    var s, a := ss[n], acts[n];
    match a
    case Check(fault) => CheckInLatest(cfg, s, fault);
    case Restart(resume, fault) => if 1 !in s.epochs { FirstContiguous(s); }
    case _ =>
  }

  // ---------- stopped for good ----------

  /** The latest epoch is finalized and the daemon is not in it. */
  ghost predicate Stopped(s: State) {
    Contiguous(s) && s.epochs != map[] && !InLatest(s) && |s.epochs| in s.epochs && s.epochs[|s.epochs|].finalized
  }

  lemma CheckStopped(cfg: Config, s: State, fault: Fault)
    requires Stopped(s)
    ensures Stopped(Checked(cfg, s, fault)) && Checked(cfg, s, fault).epochs.Keys == s.epochs.Keys
  {
    CheckContiguous(cfg, s, fault);
    CheckInLatest(cfg, s, fault);
    if Ended(s) { AdvanceContiguous(s); }
    var u := Checked(cfg, s, fault);
    assert u.epochs.Keys == s.epochs.Keys;
    assert |u.epochs.Keys| == |u.epochs| && |s.epochs.Keys| == |s.epochs|;
  }

  lemma StepStopped(cfg: Config, s: State, a: Action)
    requires Stopped(s) && Enabled(cfg, s, a)
    ensures Stopped(Next(cfg, s, a)) && Next(cfg, s, a).epochs.Keys == s.epochs.Keys
  {
    match a
    case Check(fault) => CheckStopped(cfg, s, fault);
    case Restart(resume, fault) => assert 1 in s.epochs;
    case _ =>
  }

  /** A stopped daemon never opens an epoch again, whatever happens, restarts included. */
  lemma {:induction false} StoppedForGood(cfg: Config, ss: seq<State>, acts: seq<Action>, n: nat, m: nat)
    requires IsRun(cfg, ss, acts) && n <= m < |ss| && Stopped(ss[n])
    ensures Stopped(ss[m]) && ss[m].epochs.Keys == ss[n].epochs.Keys
    decreases m
  {
    if n < m {
      StoppedForGood(cfg, ss, acts, n, m - 1);
      StepStopped(cfg, ss[m - 1], acts[m - 1]);
    }
  }

  lemma OpensAfterWaiting(cfg: Config, s: State, d: nat)
    requires Contiguous(s) && InLatest(s) && s.now + d - s.start.value >= EPOCH_DURATION_SECONDS
    ensures |Next(cfg, Next(cfg, s, Pass(d)), Check(NoFault)).epochs| == |s.epochs| + 1
  {
    var later := Next(cfg, s, Pass(d));
    var slashed := SlashedAll(cfg, later);
    FinalizeContiguous(slashed);
    AdvanceContiguous(Finalized(slashed));
  }

  /** Conversely, unless it is stopped, the daemon can still open an epoch: after a restart if it needs one, and some time. */
  lemma StillOpens(cfg: Config, ss: seq<State>, acts: seq<Action>, n: nat) returns (restart: Option<Action>, d: nat)
    requires IsRun(cfg, ss, acts) && n < |ss| && !Stopped(ss[n])
    ensures restart.Some? ==> restart.value.Restart? && Enabled(cfg, ss[n], restart.value)
    ensures var s := if restart.Some? then Next(cfg, ss[n], restart.value) else ss[n];
            |Next(cfg, Next(cfg, s, Pass(d)), Check(NoFault)).epochs| > |ss[n].epochs|
  {
    RunContiguous(cfg, ss, acts, n);
    var s := ss[n];
    if InLatest(s) {
      restart := None;
    } else if s.epochs == map[] {
      restart := Some(Restart(None, Starts));
    } else {
      assert LatestOpen(s, |s.epochs|);
      restart := Some(Restart(Some(|s.epochs|), Starts));
    }
    var u := if restart.Some? then Next(cfg, s, restart.value) else s;
    if restart.Some? { StepContiguous(cfg, s, restart.value); }
    assert InLatest(u);
    d := if u.start.value + EPOCH_DURATION_SECONDS > u.now then u.start.value + EPOCH_DURATION_SECONDS - u.now else 0;
    OpensAfterWaiting(cfg, u, d);
  }

  /** A restart can bring the daemon back to the latest epoch. */
  ghost predicate RestartHelps(cfg: Config, s: State) {
    exists resume :: Enabled(cfg, s, Restart(resume, Starts)) && InLatest(Next(cfg, s, Restart(resume, Starts)))
  }

  /** A restart brings the daemon back to the latest epoch of the table if and only if that epoch is still open. */
  lemma RestartHelpsIff(cfg: Config, ss: seq<State>, acts: seq<Action>, n: nat)
    requires IsRun(cfg, ss, acts) && n < |ss| && ss[n].epochs != map[]
    ensures |ss[n].epochs| in ss[n].epochs
    ensures RestartHelps(cfg, ss[n]) <==> !ss[n].epochs[|ss[n].epochs|].finalized
  {
    RunContiguous(cfg, ss, acts, n);
    var s := ss[n];
    var top := |s.epochs|;
    assert top in s.epochs;
    if !s.epochs[top].finalized {
      var a := Restart(Some(top), Starts);
      assert LatestOpen(s, top);
      assert Enabled(cfg, s, a) && InLatest(Next(cfg, s, a));
    }
    if RestartHelps(cfg, s) {
      var resume :| Enabled(cfg, s, Restart(resume, Starts)) && InLatest(Next(cfg, s, Restart(resume, Starts)));
      assert 1 in s.epochs;
    }
  }

  /** The daemon is in no epoch, and epoch 1 cannot be created because it exists. */
  ghost predicate Dead(s: State) {
    s.current == 0 && 1 in s.epochs && forall e | e in s.epochs :: s.epochs[e].finalized
  }

  lemma DeadIsStopped(s: State)
    requires Contiguous(s) && Dead(s)
    ensures Stopped(s)
  {}

  /** No step, a restart included, revives it. */
  lemma StepDead(cfg: Config, s: State, a: Action)
    requires Dead(s) && Enabled(cfg, s, a)
    ensures Dead(Next(cfg, s, a))
  {}

  // ---------- a run that ends so ----------

  /** The daemon is in epoch 1, the only one, begun at t. */
  ghost predicate InFirst(s: State, t: int) {
    s.epochs == map[1 := Epoch(t, false)] && s.current == 1 && s.start == Some(t)
  }

  lemma Boots(cfg: Config, s: State)
    requires Initial(s)
    ensures var u := Next(cfg, s, Restart(None, Starts)); InFirst(u, s.now) && u.now == s.now && u.used == {} && u.nodes == map[]
  {}

  lemma Joins(cfg: Config, s: State, t: int)
    requires InFirst(s, t) && s.used == {}
    ensures var u := Next(cfg, s, Join(0)); InFirst(u, t) && u.now == s.now && 0 in u.nodes
  {}

  lemma Ticks(cfg: Config, s: State, t: int)
    requires InFirst(s, t) && 0 in s.nodes
    ensures var u := Next(cfg, s, Accumulate({0}, {})); InFirst(u, t) && u.now == s.now && (0, 1) in u.uptime
  {
    assert (0, 1) in KeysOf({0}, 1);
  }

  lemma Waits(cfg: Config, s: State, t: int, d: nat)
    requires InFirst(s, t) && (0, 1) in s.uptime
    ensures var u := Next(cfg, s, Pass(d)); InFirst(u, t) && u.now == s.now + d && (0, 1) in u.uptime
  {}

  lemma Finalizes(cfg: Config, s: State, t: int)
    requires InFirst(s, t) && (0, 1) in s.uptime && Ended(s)
    ensures Next(cfg, s, Check(BeforeCreating)).epochs == map[1 := Epoch(t, true)]
  {
    assert (0, 1).1 == 1;
    assert HasRows(SlashedAll(cfg, s), 1);
  }

  lemma Dies(cfg: Config, s: State, t: int)
    requires s.epochs == map[1 := Epoch(t, true)]
    ensures Enabled(cfg, s, Restart(None, Starts)) && Dead(Next(cfg, s, Restart(None, Starts)))
  {}

  /** One node, one tick, a week, an error after paying and before creating epoch 2, and a restart: the daemon is dead. */
  lemma DeadAfterRestart(cfg: Config, s: State) returns (ss: seq<State>, acts: seq<Action>)
    requires Initial(s)
    ensures IsRun(cfg, ss, acts) && |acts| == 6 && ss[0] == s
    ensures acts[4] == Check(BeforeCreating) && acts[5] == Restart(None, Starts) && Dead(ss[6]) && Stopped(ss[6])
  {
    var week := EPOCH_DURATION_SECONDS;
    acts := [Restart(None, Starts), Join(0), Accumulate({0}, {}), Pass(week), Check(BeforeCreating), Restart(None, Starts)];
    Boots(cfg, s);
    var s1 := Next(cfg, s, acts[0]);
    Joins(cfg, s1, s.now);
    var s2 := Next(cfg, s1, acts[1]);
    Ticks(cfg, s2, s.now);
    var s3 := Next(cfg, s2, acts[2]);
    Waits(cfg, s3, s.now, week);
    var s4 := Next(cfg, s3, acts[3]);
    Finalizes(cfg, s4, s.now);
    var s5 := Next(cfg, s4, acts[4]);
    Dies(cfg, s5, s.now);
    ss := [s, s1, s2, s3, s4, s5, Next(cfg, s5, acts[5])];
    SixSteps(cfg, ss, acts);
    RunContiguous(cfg, ss, acts, 6);
    DeadIsStopped(ss[6]);
  }

  lemma SixSteps(cfg: Config, ss: seq<State>, acts: seq<Action>)
    requires |ss| == 7 && |acts| == 6 && Initial(ss[0])
    requires Follows(cfg, ss[0], acts[0], ss[1]) && Follows(cfg, ss[1], acts[1], ss[2]) && Follows(cfg, ss[2], acts[2], ss[3])
    requires Follows(cfg, ss[3], acts[3], ss[4]) && Follows(cfg, ss[4], acts[4], ss[5]) && Follows(cfg, ss[5], acts[5], ss[6])
    ensures IsRun(cfg, ss, acts)
  {}

  ghost predicate Follows(cfg: Config, s: State, a: Action, u: State) { Enabled(cfg, s, a) && u == Next(cfg, s, a) }
}
