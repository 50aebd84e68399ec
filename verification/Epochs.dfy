/**
  Payment epochs: uptime accumulation, the end-of-epoch check and slashing of
  cyxcloud-gateway/src/payment_daemon.rs over the tables of cyxcloud-metadata/src/postgres.rs.
  Node identifiers are never reused; removing a node removes its uptime and slashing rows.
*/
module Epochs {
  import opened Wrappers
  import Lifecycle

  type Id = nat
  type Key = (nat, nat)

  datatype Record = Record(online: nat, offline: nat)

  datatype Epoch = Epoch(startedAt: int, finalized: bool)

  datatype Config = Config(interval: nat, threshold: nat)

  const EPOCH_DURATION_SECONDS: nat := 604800

  /** `slashes` counts the slashing rows; `current` and `start` are the daemon's own memory, 0 before it is set. */
  datatype State = State(now: int, nodes: map<Id, Lifecycle.Status>, used: set<Id>, uptime: map<Key, Record>,
                         slashes: map<Key, nat>, epochs: map<nat, Epoch>, current: nat, start: Option<int>)

  /** Where a database error stops the end-of-epoch work. */
  datatype Fault =
    | NoFault
    | BeforeSlashing
    | InSlashing(done: set<Id>)
    | InPayment
    | BeforeCreating
    | BeforeInitializing

  /** Where a database error stops the work at start-up. */
  datatype StartFault = Starts | BeforeQuery | BeforeFirst | BeforeFirstRecords

  datatype Action =
    | Pass(d: nat)
    | Join(id: Id)
    | Leave(id: Id)
    | SetStatus(id: Id, status: Lifecycle.Status)
    | Accumulate(reached: set<Id>, touched: set<Id>)   // nodes credited; nodes that only got a record
    | Check(fault: Fault)
    | Restart(resume: Option<nat>, start: StartFault)   // the latest open epoch found, if any

  // ---------- uptime ----------

  predicate Up(status: Lifecycle.Status) { status == Lifecycle.Online || status == Lifecycle.Recovering }

  function RecordOf(uptime: map<Key, Record>, k: Key): Record {
    if k in uptime then uptime[k] else Record(0, 0)
  }

  function Credit(r: Record, status: Lifecycle.Status, seconds: nat): Record {
    if Up(status) then r.(online := r.online + seconds) else r.(offline := r.offline + seconds)
  }

  function KeysOf(ids: set<Id>, epoch: nat): set<Key> { set id | id in ids :: (id, epoch) }

  function Credited(cfg: Config, s: State, reached: set<Id>, touched: set<Id>): map<Key, Record> {
    map k: Key | k in s.uptime.Keys + KeysOf(reached, s.current) + KeysOf(touched, s.current) ::
      if k.1 == s.current && k.0 in reached && k.0 in s.nodes
      then Credit(RecordOf(s.uptime, k), s.nodes[k.0], cfg.interval) else RecordOf(s.uptime, k)
  }

  // ---------- the end of an epoch ----------

  predicate Ended(s: State) {
    s.current != 0 && s.start.Some? && s.now - s.start.value >= EPOCH_DURATION_SECONDS
  }

  predicate Overdue(cfg: Config, s: State, id: Id, epoch: nat) {
    (id, epoch) in s.uptime && s.uptime[(id, epoch)].offline > cfg.threshold
  }

  function OverdueNodes(cfg: Config, s: State): set<Id> {
    set k: Key | k in s.uptime && k.1 == s.current && s.uptime[k].offline > cfg.threshold :: k.0
  }

  function Slashes(s: State, id: Id, epoch: nat): nat {
    RowCount(s.slashes, (id, epoch))
  }

  /** One more slashing row for each of the nodes, and no other change. */
  function Slashed(s: State, ids: set<Id>): (u: State)
    ensures u == s.(slashes := u.slashes)
  {
    s.(slashes := SlashRows(s.slashes, s.current, ids))
  }

  function RowCount(slashes: map<Key, nat>, k: Key): nat {
    if k in slashes then slashes[k] else 0
  }

  function SlashRows(slashes: map<Key, nat>, epoch: nat, ids: set<Id>): map<Key, nat> {
    map k: Key | k in slashes.Keys + KeysOf(ids, epoch) :: RowCount(slashes, k) + (if k.1 == epoch && k.0 in ids then 1 else 0)
  }

  predicate HasRows(s: State, epoch: nat) {
    exists k :: k in s.uptime && k.1 == epoch
  }

  /** An epoch without uptime rows is not finalized, but the next one starts all the same. */
  function Finalized(s: State): (u: State)
    ensures u == s.(epochs := u.epochs) && u.epochs.Keys == s.epochs.Keys
  {
    if s.current in s.epochs && HasRows(s, s.current)
    then s.(epochs := s.epochs[s.current := s.epochs[s.current].(finalized := true)]) else s
  }

  function Created(s: State): State {
    s.(epochs := s.epochs[s.current + 1 := Epoch(s.now, false)])
  }

  function Initialized(s: State, epoch: nat): map<Key, Record> {
    var active := set id | id in s.nodes && s.nodes[id] != Lifecycle.Maintenance;
    map k: Key | k in s.uptime.Keys + KeysOf(active, epoch) :: RecordOf(s.uptime, k)
  }

  function Opened(s: State): State {
    s.(uptime := Initialized(s, s.current + 1), current := s.current + 1, start := Some(s.now))
  }

  function SlashedAll(cfg: Config, s: State): State { Slashed(s, OverdueNodes(cfg, s)) }

  /** The next epoch, unless its row exists already and the insertion fails. */
  function Advanced(s: State): State {
    if s.current + 1 in s.epochs then s else Opened(Created(s))
  }

  /** Payment and the step to the next epoch, after slashing. */
  function Settled(s: State, fault: Fault): State {
    match fault
    case InPayment => s
    case BeforeCreating => Finalized(s)
    case BeforeInitializing => if s.current + 1 in s.epochs then Finalized(s) else Created(Finalized(s))
    case _ => Advanced(Finalized(s))
  }

  function Checked(cfg: Config, s: State, fault: Fault): State {
    if !Ended(s) then s
    else match fault
         case BeforeSlashing => s
         case InSlashing(done) => Slashed(s, done)
         case _ => Settled(SlashedAll(cfg, s), fault)
  }

  function Idle(s: State): State { s.(current := 0, start := None) }

  function WithFirst(s: State): State { s.(epochs := s.epochs[1 := Epoch(s.now, false)]) }

  /** The daemon forgets its epoch and looks for the latest open one; without one it creates epoch 1. */
  function Restarted(s: State, resume: Option<nat>, fault: StartFault): State {
    if fault.BeforeQuery? then Idle(s)
    else match resume
         case Some(e) => if e in s.epochs then s.(current := e, start := Some(s.epochs[e].startedAt)) else s
         case None =>
           if 1 in s.epochs || fault.BeforeFirst? then Idle(s)
           else if fault.BeforeFirstRecords? then Idle(WithFirst(s))
           else WithFirst(s).(uptime := Initialized(s, 1), current := 1, start := Some(s.now))
  }

  // ---------- steps ----------

  function Next(cfg: Config, s: State, a: Action): State {
    match a
    case Pass(d) => s.(now := s.now + d)
    case Join(id) =>
      if id in s.used then s else s.(nodes := s.nodes[id := Lifecycle.Online], used := s.used + {id})
    case Leave(id) =>
      s.(nodes := s.nodes - {id}, uptime := map k: Key | k in s.uptime && k.0 != id :: s.uptime[k],
         slashes := map k: Key | k in s.slashes && k.0 != id :: s.slashes[k])
    case SetStatus(id, status) => if id in s.nodes then s.(nodes := s.nodes[id := status]) else s
    case Accumulate(reached, touched) => if s.current == 0 then s else s.(uptime := Credited(cfg, s, reached, touched))
    case Check(fault) => Checked(cfg, s, fault)
    case Restart(resume, fault) => Restarted(s, resume, fault)
  }

  ghost predicate LatestOpen(s: State, e: nat) {
    e in s.epochs && !s.epochs[e].finalized && forall f | f in s.epochs && !s.epochs[f].finalized :: f <= e
  }

  /** Without an error the accumulation reaches every node; with one, some of them. */
  ghost predicate Enabled(cfg: Config, s: State, a: Action) {
    match a
    case Accumulate(reached, touched) => reached + touched <= s.nodes.Keys
    case Check(fault) => fault.InSlashing? ==> fault.done <= OverdueNodes(cfg, s)
    case Restart(resume, _) =>
      (match resume case Some(e) => LatestOpen(s, e) case None => forall e | e in s.epochs :: s.epochs[e].finalized)
    case _ => true
  }

  ghost predicate Initial(s: State) {
    s.nodes == map[] && s.used == {} && s.uptime == map[] && s.slashes == map[] && s.epochs == map[] && s.current == 0 && s.start == None
  }

  ghost predicate IsRun(cfg: Config, ss: seq<State>, acts: seq<Action>) {
    && |ss| == |acts| + 1 && Initial(ss[0])
    && forall i {:trigger acts[i]} | 0 <= i < |acts| :: Enabled(cfg, ss[i], acts[i]) && ss[i + 1] == Next(cfg, ss[i], acts[i])
  }

  // ---------- foreign keys ----------

  ghost predicate Linked(s: State) {
    && s.nodes.Keys <= s.used
    && (forall k | k in s.uptime :: k.0 in s.nodes)
    && (forall k | k in s.slashes :: k.0 in s.nodes)
  }

  lemma StepLinked(cfg: Config, s: State, a: Action)
    requires Linked(s) && Enabled(cfg, s, a)
    ensures Linked(Next(cfg, s, a)) && s.used <= Next(cfg, s, a).used
  {
    match a
    case Check(fault) => CheckLinked(cfg, s, fault);
    case Restart(resume, fault) => RestartLinked(s, resume, fault);
    case Accumulate(reached, touched) => TickLinked(cfg, s, reached, touched);
    case _ =>
  }

  lemma RestartLinked(s: State, resume: Option<nat>, fault: StartFault)
    requires Linked(s)
    ensures Linked(Restarted(s, resume, fault)) && Restarted(s, resume, fault).used == s.used
  {}

  lemma TickLinked(cfg: Config, s: State, reached: set<Id>, touched: set<Id>)
    requires Linked(s) && reached + touched <= s.nodes.Keys
    ensures Linked(s.(uptime := Credited(cfg, s, reached, touched)))
  {}

  lemma SlashLinked(s: State, ids: set<Id>)
    requires Linked(s) && ids <= s.nodes.Keys
    ensures Linked(Slashed(s, ids))
  {}

  lemma OverdueLinked(cfg: Config, s: State)
    requires Linked(s)
    ensures OverdueNodes(cfg, s) <= s.nodes.Keys
  {}

  lemma AdvanceLinked(s: State)
    requires Linked(s)
    ensures Linked(Advanced(s))
  {}

  lemma CheckLinked(cfg: Config, s: State, fault: Fault)
    requires Linked(s) && (fault.InSlashing? ==> fault.done <= OverdueNodes(cfg, s))
    ensures Linked(Checked(cfg, s, fault)) && Checked(cfg, s, fault).nodes == s.nodes && Checked(cfg, s, fault).used == s.used
  {
    OverdueLinked(cfg, s);
    if fault.InSlashing? {
      SlashLinked(s, fault.done);
    } else {
      SlashLinked(s, OverdueNodes(cfg, s));
      SettleLinked(SlashedAll(cfg, s), fault);
    }
  }

  lemma SettleLinked(s: State, fault: Fault)
    requires Linked(s)
    ensures Linked(Settled(s, fault)) && Settled(s, fault).nodes == s.nodes && Settled(s, fault).used == s.used
  {
    FinalizeLinked(s);
    AdvanceLinked(Finalized(s));
  }

  lemma FinalizeLinked(s: State)
    requires Linked(s)
    ensures Linked(Finalized(s))
  {}

  lemma {:induction false} RunLinked(cfg: Config, ss: seq<State>, acts: seq<Action>, n: nat)
    requires IsRun(cfg, ss, acts) && n < |ss|
    ensures Linked(ss[n])
  {
    if n > 0 {
      RunLinked(cfg, ss, acts, n - 1);
      StepLinked(cfg, ss[n - 1], acts[n - 1]);
    }
  }

  // ---------- every second comes from one tick ----------

  /** Action i of the run is a tick that credits node id in epoch e. */
  ghost predicate Reaches(ss: seq<State>, acts: seq<Action>, i: nat, id: Id, e: nat) {
    i < |acts| && i < |ss| && acts[i].Accumulate? && ss[i].current == e != 0 && id in acts[i].reached
  }

  ghost function Ticks(ss: seq<State>, acts: seq<Action>, n: nat, id: Id, e: nat): nat {
    if n == 0 then 0 else Ticks(ss, acts, n - 1, id, e) + (if Reaches(ss, acts, n - 1, id, e) then 1 else 0)
  }

  /** Such a tick finds the node up, that is online or recovering, or finds it down. */
  ghost predicate ReachesAs(ss: seq<State>, acts: seq<Action>, i: nat, id: Id, e: nat, up: bool) {
    && Reaches(ss, acts, i, id, e) && id in ss[i].nodes
    && (up <==> ss[i].nodes[id] == Lifecycle.Online || ss[i].nodes[id] == Lifecycle.Recovering)
  }

  ghost function TicksAs(ss: seq<State>, acts: seq<Action>, n: nat, id: Id, e: nat, up: bool): nat {
    if n == 0 then 0 else TicksAs(ss, acts, n - 1, id, e, up) + (if ReachesAs(ss, acts, n - 1, id, e, up) then 1 else 0)
  }

  /** The seconds of one kind in a node's record. */
  function SecondsAs(s: State, id: Id, e: nat, up: bool): nat {
    var r := RecordOf(s.uptime, (id, e));
    if up then r.online else r.offline
  }

  function Seconds(s: State, id: Id, e: nat): nat {
    var r := RecordOf(s.uptime, (id, e));
    r.online + r.offline
  }

  /** One step changes a registered node's online seconds by one interval exactly if it is a tick that finds it up, and so for offline. */
  lemma StepSeconds(cfg: Config, ss: seq<State>, acts: seq<Action>, n: nat, id: Id, e: nat, up: bool)
    requires IsRun(cfg, ss, acts) && n < |acts| && Linked(ss[n]) && id in ss[n + 1].nodes && id in ss[n].nodes
    ensures SecondsAs(ss[n + 1], id, e, up) == SecondsAs(ss[n], id, e, up) + (if ReachesAs(ss, acts, n, id, e, up) then cfg.interval else 0)
  {
    var s, a := ss[n], acts[n];
    var u := Next(cfg, s, a);
    assert ss[n + 1] == u;
    match a
    case Accumulate(reached, touched) => CreditStep(cfg, s, reached, touched, id, e);
    case Check(fault) => CheckKeepsUptime(cfg, s, fault, id, e);
    case Restart(resume, fault) => RestartKeepsUptime(s, resume, fault, id, e);
    case Leave(other) => assert (id, e).0 != other;
    case _ =>
  }

  lemma CreditStep(cfg: Config, s: State, reached: set<Id>, touched: set<Id>, id: Id, e: nat)
    requires Linked(s) && reached + touched <= s.nodes.Keys && id in s.nodes
    ensures var r, q := RecordOf(s.uptime, (id, e)), RecordOf(Next(cfg, s, Accumulate(reached, touched)).uptime, (id, e));
            if !(s.current == e != 0 && id in reached) then q == r
            else if s.nodes[id] == Lifecycle.Online || s.nodes[id] == Lifecycle.Recovering then q == Record(r.online + cfg.interval, r.offline)
            else q == Record(r.online, r.offline + cfg.interval)
  {
    assert id in reached ==> (id, s.current) in KeysOf(reached, s.current);
  }

  lemma CheckKeepsUptime(cfg: Config, s: State, fault: Fault, id: Id, e: nat)
    ensures RecordOf(Checked(cfg, s, fault).uptime, (id, e)) == RecordOf(s.uptime, (id, e))
    ensures (id, e) in s.uptime ==> (id, e) in Checked(cfg, s, fault).uptime
  {}

  lemma RestartKeepsUptime(s: State, resume: Option<nat>, fault: StartFault, id: Id, e: nat)
    ensures RecordOf(Restarted(s, resume, fault).uptime, (id, e)) == RecordOf(s.uptime, (id, e))
    ensures (id, e) in s.uptime ==> (id, e) in Restarted(s, resume, fault).uptime
  {}

  lemma NewNode(cfg: Config, s: State, a: Action, id: Id)
    requires id !in s.nodes && id in Next(cfg, s, a).nodes
    ensures a == Join(id) && id !in s.used && Next(cfg, s, a).uptime == s.uptime
  {
    match a
    case Check(fault) => CheckKeepsNodes(cfg, s, fault);
    case _ =>
  }

  lemma CheckKeepsNodes(cfg: Config, s: State, fault: Fault)
    ensures Checked(cfg, s, fault).nodes == s.nodes
  {}

  /** A node not yet known has no ticks. */
  lemma {:induction false} NoTicksBefore(cfg: Config, ss: seq<State>, acts: seq<Action>, n: nat, id: Id, e: nat)
    requires IsRun(cfg, ss, acts) && n < |ss| && id !in ss[n].used
    ensures TicksAs(ss, acts, n, id, e, true) == 0 && TicksAs(ss, acts, n, id, e, false) == 0
  {
    if n > 0 {
      RunLinked(cfg, ss, acts, n - 1);
      StepLinked(cfg, ss[n - 1], acts[n - 1]);
      NoTicksBefore(cfg, ss, acts, n - 1, id, e);
    }
  }

  /**
    A registered node's online seconds in an epoch are the interval times the ticks that reached it online or recovering,
    its offline seconds the interval times the other ticks that reached it.
  */
  lemma {:induction false} UptimeIsTicks(cfg: Config, ss: seq<State>, acts: seq<Action>, n: nat, id: Id, e: nat, up: bool)
    requires IsRun(cfg, ss, acts) && n < |ss| && id in ss[n].nodes
    ensures SecondsAs(ss[n], id, e, up) == cfg.interval * TicksAs(ss, acts, n, id, e, up)
  {
    assert n > 0;
    RunLinked(cfg, ss, acts, n - 1);
    if id in ss[n - 1].nodes {
      UptimeIsTicks(cfg, ss, acts, n - 1, id, e, up);
      OldNodeTicks(cfg, ss, acts, n, id, e, up);
    } else {
      NewNodeTicks(cfg, ss, acts, n, id, e, up);
    }
  }

  lemma OldNodeTicks(cfg: Config, ss: seq<State>, acts: seq<Action>, n: nat, id: Id, e: nat, up: bool)
    requires IsRun(cfg, ss, acts) && 0 < n < |ss| && Linked(ss[n - 1]) && id in ss[n].nodes && id in ss[n - 1].nodes
    requires SecondsAs(ss[n - 1], id, e, up) == cfg.interval * TicksAs(ss, acts, n - 1, id, e, up)
    ensures SecondsAs(ss[n], id, e, up) == cfg.interval * TicksAs(ss, acts, n, id, e, up)
  {
    var hit := ReachesAs(ss, acts, n - 1, id, e, up);
    StepSeconds(cfg, ss, acts, n - 1, id, e, up);
    AddTick(cfg.interval, TicksAs(ss, acts, n - 1, id, e, up), hit);
  }

  lemma NewNodeTicks(cfg: Config, ss: seq<State>, acts: seq<Action>, n: nat, id: Id, e: nat, up: bool)
    requires IsRun(cfg, ss, acts) && 0 < n < |ss| && Linked(ss[n - 1]) && id in ss[n].nodes && id !in ss[n - 1].nodes
    ensures SecondsAs(ss[n], id, e, up) == 0 && cfg.interval * TicksAs(ss, acts, n, id, e, up) == 0
  {
    NewNodeSeconds(cfg, ss[n - 1], acts[n - 1], id, e);
    NoTicksBefore(cfg, ss, acts, n - 1, id, e);
    AddTick(cfg.interval, 0, false);
  }

  lemma {:induction false} TicksSplit(cfg: Config, ss: seq<State>, acts: seq<Action>, n: nat, id: Id, e: nat)
    requires IsRun(cfg, ss, acts) && n < |ss|
    ensures Ticks(ss, acts, n, id, e) == TicksAs(ss, acts, n, id, e, true) + TicksAs(ss, acts, n, id, e, false)
  {
    if n > 0 {
      TicksSplit(cfg, ss, acts, n - 1, id, e);
      assert Enabled(cfg, ss[n - 1], acts[n - 1]);
    }
  }

  /** Online plus offline seconds of a registered node's epoch are the interval times the ticks that reached it. */
  lemma SecondsAreTicks(cfg: Config, ss: seq<State>, acts: seq<Action>, n: nat, id: Id, e: nat)
    requires IsRun(cfg, ss, acts) && n < |ss| && id in ss[n].nodes
    ensures Seconds(ss[n], id, e) == cfg.interval * Ticks(ss, acts, n, id, e)
  {
    UptimeIsTicks(cfg, ss, acts, n, id, e, true);
    UptimeIsTicks(cfg, ss, acts, n, id, e, false);
    TicksSplit(cfg, ss, acts, n, id, e);
    AddProducts(cfg.interval, TicksAs(ss, acts, n, id, e, true), TicksAs(ss, acts, n, id, e, false),
      SecondsAs(ss[n], id, e, true), SecondsAs(ss[n], id, e, false));
  }

  lemma NewNodeSeconds(cfg: Config, s: State, a: Action, id: Id, e: nat)
    requires Linked(s) && id !in s.nodes && id in Next(cfg, s, a).nodes
    ensures id !in s.used && RecordOf(Next(cfg, s, a).uptime, (id, e)) == Record(0, 0) && !a.Accumulate?
  {
    NewNode(cfg, s, a, id);
    assert (id, e).0 == id;
  }

  lemma AddTick(interval: nat, ticks: nat, reached: bool)
    ensures interval * (ticks + (if reached then 1 else 0)) == interval * ticks + (if reached then interval else 0)
    ensures interval * 0 == 0
  {}

  // ---------- no tick is credited twice ----------

  /** The seconds of a node over the epochs up to m, and the ticks that reached it at all. */
  function SecondsUpTo(s: State, id: Id, m: nat): nat {
    Seconds(s, id, m) + if m == 0 then 0 else SecondsUpTo(s, id, m - 1)
  }

  ghost predicate ReachesAny(ss: seq<State>, acts: seq<Action>, i: nat, id: Id) {
    i < |acts| && i < |ss| && acts[i].Accumulate? && ss[i].current != 0 && id in acts[i].reached
  }

  ghost function AllTicks(ss: seq<State>, acts: seq<Action>, n: nat, id: Id): nat {
    if n == 0 then 0 else AllTicks(ss, acts, n - 1, id) + (if ReachesAny(ss, acts, n - 1, id) then 1 else 0)
  }

  ghost function TicksUpTo(ss: seq<State>, acts: seq<Action>, n: nat, id: Id, m: nat): nat {
    Ticks(ss, acts, n, id, m) + if m == 0 then 0 else TicksUpTo(ss, acts, n, id, m - 1)
  }

  lemma {:induction false} TickInOneEpoch(ss: seq<State>, acts: seq<Action>, n: nat, id: Id, m: nat)
    requires n > 0
    ensures TicksUpTo(ss, acts, n, id, m) == TicksUpTo(ss, acts, n - 1, id, m)
                                            + (if ReachesAny(ss, acts, n - 1, id) && ss[n - 1].current <= m then 1 else 0)
    decreases m
  {
    if m > 0 { TickInOneEpoch(ss, acts, n, id, m - 1); }
  }

  lemma {:induction false} NoTicksAtStart(ss: seq<State>, acts: seq<Action>, id: Id, m: nat)
    ensures TicksUpTo(ss, acts, 0, id, m) == 0
  {
    if m > 0 { NoTicksAtStart(ss, acts, id, m - 1); }
  }

  lemma {:induction false} TicksPartition(ss: seq<State>, acts: seq<Action>, n: nat, id: Id, m: nat)
    requires n <= |acts| <= |ss| && forall i | 0 <= i < n :: ss[i].current <= m
    ensures TicksUpTo(ss, acts, n, id, m) == AllTicks(ss, acts, n, id)
  {
    if n == 0 {
      NoTicksAtStart(ss, acts, id, m);
    } else {
      TicksPartition(ss, acts, n - 1, id, m);
      TickInOneEpoch(ss, acts, n, id, m);
    }
  }

  lemma {:induction false} SecondsSum(cfg: Config, ss: seq<State>, acts: seq<Action>, n: nat, id: Id, m: nat)
    requires IsRun(cfg, ss, acts) && n < |ss| && id in ss[n].nodes
    ensures SecondsUpTo(ss[n], id, m) == cfg.interval * TicksUpTo(ss, acts, n, id, m)
    decreases m
  {
    SecondsAreTicks(cfg, ss, acts, n, id, m);
    if m > 0 {
      SecondsSum(cfg, ss, acts, n, id, m - 1);
      AddProducts(cfg.interval, Ticks(ss, acts, n, id, m), TicksUpTo(ss, acts, n, id, m - 1),
        Seconds(ss[n], id, m), SecondsUpTo(ss[n], id, m - 1));
    }
  }

  lemma AddProducts(interval: nat, b: nat, c: nat, x: nat, y: nat)
    requires x == interval * b && y == interval * c
    ensures x + y == interval * (b + c)
  {}

  /** Over all its epochs a node is credited exactly one interval for each tick that reached it. */
  lemma CreditedOnce(cfg: Config, ss: seq<State>, acts: seq<Action>, n: nat, id: Id, m: nat)
    requires IsRun(cfg, ss, acts) && n < |ss| && id in ss[n].nodes && forall i | 0 <= i < n :: ss[i].current <= m
    ensures SecondsUpTo(ss[n], id, m) == cfg.interval * AllTicks(ss, acts, n, id)
  {
    SecondsSum(cfg, ss, acts, n, id, m);
    TicksPartition(ss, acts, n, id, m);
  }

  // ---------- runs without restart or database error ----------

  /** The daemon starts once, and no end-of-epoch work is interrupted. */
  ghost predicate Smooth(acts: seq<Action>) {
    && |acts| > 0 && acts[0] == Restart(None, Starts)
    && forall i | 1 <= i < |acts| :: !acts[i].Restart? && (acts[i].Check? ==> acts[i].fault == NoFault)
  }

  /** The epochs are 1 to the current one, each at least a full epoch after the one before. */
  ghost predicate Numbered(s: State) {
    && s.current >= 1
    && (forall e :: e in s.epochs <==> 1 <= e <= s.current)
    && s.start == Some(s.epochs[s.current].startedAt)
    && (forall e | 1 <= e < s.current :: s.epochs[e + 1].startedAt - s.epochs[e].startedAt >= EPOCH_DURATION_SECONDS)
  }

  /** Rows belong to epochs that exist, slashing rows to epochs that have ended. */
  ghost predicate Dated(s: State) {
    && (forall k | k in s.uptime :: 1 <= k.1 <= s.current)
    && (forall k | k in s.slashes :: 1 <= k.1 < s.current)
  }

  /** In each ended epoch a registered node was slashed once if it was offline too long, else not at all. */
  ghost predicate Just(cfg: Config, s: State) {
    forall id: Id, e: nat | id in s.nodes && e < s.current :: Slashes(s, id, e) == if Overdue(cfg, s, id, e) then 1 else 0
  }

  ghost predicate Sound(cfg: Config, s: State) { Linked(s) && Numbered(s) && Dated(s) && Just(cfg, s) }

  lemma SlashedCount(cfg: Config, s: State, id: Id, e: nat)
    ensures Slashes(SlashedAll(cfg, s), id, e) == Slashes(s, id, e) + (if e == s.current && Overdue(cfg, s, id, e) then 1 else 0)
  {
    assert Overdue(cfg, s, id, s.current) <==> id in OverdueNodes(cfg, s) by { assert (id, s.current).0 == id; }
    assert id in OverdueNodes(cfg, s) ==> (id, s.current) in KeysOf(OverdueNodes(cfg, s), s.current);
  }

  lemma SlashedDates(cfg: Config, s: State)
    requires Dated(s) && s.current >= 1
    ensures forall k | k in SlashedAll(cfg, s).slashes :: 1 <= k.1 <= s.current
  {}

  lemma AdvanceNumbered(s: State, paid: State)
    requires Numbered(s) && Ended(s) && paid == s.(slashes := paid.slashes, epochs := paid.epochs)
    requires paid.epochs.Keys == s.epochs.Keys && forall e | e in s.epochs :: paid.epochs[e].startedAt == s.epochs[e].startedAt
    ensures Numbered(Advanced(paid)) && Advanced(paid).current == s.current + 1 && Advanced(paid).nodes == s.nodes
  {
    var u := Advanced(paid);
    forall e | 1 <= e < u.current ensures u.epochs[e + 1].startedAt - u.epochs[e].startedAt >= EPOCH_DURATION_SECONDS {
      if e < s.current { assert s.epochs[e + 1].startedAt == u.epochs[e + 1].startedAt; }
    }
  }

  lemma FinalizedStarts(s: State)
    ensures forall e | e in s.epochs :: Finalized(s).epochs[e].startedAt == s.epochs[e].startedAt
  {}

  lemma AdvanceDated(cfg: Config, s: State)
    requires Dated(s) && s.current >= 1
    ensures Advanced(Finalized(SlashedAll(cfg, s))).current == s.current + 1 ==> Dated(Advanced(Finalized(SlashedAll(cfg, s))))
  {
    SlashedDates(cfg, s);
  }

  lemma AdvanceSound(cfg: Config, s: State)
    requires Sound(cfg, s) && Ended(s)
    ensures var u := Advanced(Finalized(SlashedAll(cfg, s)));
            Numbered(u) && Dated(u) && u.current == s.current + 1 && u.nodes == s.nodes
  {
    FinalizedStarts(SlashedAll(cfg, s));
    AdvanceNumbered(s, Finalized(SlashedAll(cfg, s)));
    AdvanceDated(cfg, s);
  }

  lemma AdvanceJustAt(cfg: Config, s: State, u: State, id: Id, e: nat)
    requires Sound(cfg, s) && Ended(s) && u == Checked(cfg, s, NoFault) && id in s.nodes && e <= s.current
    ensures Slashes(u, id, e) == if Overdue(cfg, u, id, e) then 1 else 0
  {
    SlashedCount(cfg, s, id, e);
    CheckKeepsUptime(cfg, s, NoFault, id, e);
    OverdueByRecord(cfg, s, id, e);
    OverdueByRecord(cfg, u, id, e);
    assert Slashes(u, id, e) == Slashes(SlashedAll(cfg, s), id, e);
    if e < s.current {
      assert Slashes(s, id, e) == if Overdue(cfg, s, id, e) then 1 else 0;
    } else {
      assert (id, e).1 == s.current;
    }
  }

  lemma AdvanceJust(cfg: Config, s: State)
    requires Sound(cfg, s) && Ended(s)
    ensures Just(cfg, Checked(cfg, s, NoFault))
  {
    var u := Checked(cfg, s, NoFault);
    AdvanceSound(cfg, s);
    forall id: Id, e: nat | id in u.nodes && e < u.current ensures Slashes(u, id, e) == if Overdue(cfg, u, id, e) then 1 else 0 {
      AdvanceJustAt(cfg, s, u, id, e);
    }
  }

  lemma OverdueByRecord(cfg: Config, s: State, id: Id, e: nat)
    ensures Overdue(cfg, s, id, e) <==> RecordOf(s.uptime, (id, e)).offline > cfg.threshold
  {}

  /** Ended epochs stay just as long as their rows stay the same. */
  lemma JustKept(cfg: Config, s: State, u: State)
    requires Just(cfg, s) && u.current == s.current
    requires forall id: Id, e: nat {:trigger Slashes(u, id, e)} | id in u.nodes && e < u.current ::
               if id in s.nodes then Slashes(u, id, e) == Slashes(s, id, e) && RecordOf(u.uptime, (id, e)) == RecordOf(s.uptime, (id, e))
               else Slashes(u, id, e) == 0 && (id, e) !in u.uptime
    ensures Just(cfg, u)
  {
    forall id: Id, e: nat | id in u.nodes && e < u.current ensures Slashes(u, id, e) == if Overdue(cfg, u, id, e) then 1 else 0 {
      OverdueByRecord(cfg, s, id, e);
      OverdueByRecord(cfg, u, id, e);
      if id in s.nodes {
        assert Slashes(s, id, e) == if Overdue(cfg, s, id, e) then 1 else 0;
      }
    }
  }

  lemma TickSound(cfg: Config, s: State, reached: set<Id>, touched: set<Id>)
    requires Sound(cfg, s) && reached + touched <= s.nodes.Keys
    ensures Sound(cfg, Next(cfg, s, Accumulate(reached, touched)))
  {
    var u := Next(cfg, s, Accumulate(reached, touched));
    StepLinked(cfg, s, Accumulate(reached, touched));
    forall id: Id, e: nat | id in u.nodes && e < u.current ensures RecordOf(u.uptime, (id, e)) == RecordOf(s.uptime, (id, e)) {}
    JustKept(cfg, s, u);
  }

  lemma LeaveSound(cfg: Config, s: State, id: Id)
    requires Sound(cfg, s)
    ensures Sound(cfg, Next(cfg, s, Leave(id)))
  {
    var u := Next(cfg, s, Leave(id));
    StepLinked(cfg, s, Leave(id));
    forall other: Id, e: nat | other in u.nodes && e < u.current
      ensures other in s.nodes && Slashes(u, other, e) == Slashes(s, other, e)
      ensures RecordOf(u.uptime, (other, e)) == RecordOf(s.uptime, (other, e))
    {
      assert (other, e).0 == other;
    }
    JustKept(cfg, s, u);
  }

  lemma StepSound(cfg: Config, s: State, a: Action)
    requires Sound(cfg, s) && Enabled(cfg, s, a) && !a.Restart? && (a.Check? ==> a.fault == NoFault)
    ensures Sound(cfg, Next(cfg, s, a))
  {
    match a
    case Accumulate(reached, touched) => TickSound(cfg, s, reached, touched);
    case Leave(id) => LeaveSound(cfg, s, id);
    case Check(fault) =>
      StepLinked(cfg, s, a);
      if Ended(s) {
        AdvanceSound(cfg, s);
        AdvanceJust(cfg, s);
      }
    case Join(id) => JoinSound(cfg, s, id);
    case SetStatus(id, status) => StatusSound(cfg, s, id, status);
    case Pass(d) => JustKept(cfg, s, Next(cfg, s, a));
  }

  lemma StatusSound(cfg: Config, s: State, id: Id, status: Lifecycle.Status)
    requires Sound(cfg, s)
    ensures Sound(cfg, Next(cfg, s, SetStatus(id, status)))
  {
    StepLinked(cfg, s, SetStatus(id, status));
    JustKept(cfg, s, Next(cfg, s, SetStatus(id, status)));
  }

  lemma JoinSound(cfg: Config, s: State, id: Id)
    requires Sound(cfg, s)
    ensures Sound(cfg, Next(cfg, s, Join(id)))
  {
    var u := Next(cfg, s, Join(id));
    StepLinked(cfg, s, Join(id));
    forall e: nat | id !in s.nodes ensures Slashes(s, id, e) == 0 && (id, e) !in s.uptime { assert (id, e).0 == id; }
    JustKept(cfg, s, u);
  }

  lemma BootSound(cfg: Config, s: State)
    requires Initial(s)
    ensures Sound(cfg, Next(cfg, s, Restart(None, Starts)))
  {}

  lemma {:induction false} SmoothRunSound(cfg: Config, ss: seq<State>, acts: seq<Action>, n: nat)
    requires IsRun(cfg, ss, acts) && Smooth(acts) && 1 <= n < |ss|
    ensures Sound(cfg, ss[n])
  {
    if n == 1 {
      BootSound(cfg, ss[0]);
      assert ss[1] == Next(cfg, ss[0], acts[0]);
    } else {
      SmoothRunSound(cfg, ss, acts, n - 1);
      StepSound(cfg, ss[n - 1], acts[n - 1]);
    }
  }

  /** The ticks up to state n that found the node down add up to more than the threshold. */
  ghost predicate DownTooLong(cfg: Config, ss: seq<State>, acts: seq<Action>, n: nat, id: Id, e: nat) {
    cfg.interval * TicksAs(ss, acts, n, id, e, false) > cfg.threshold
  }

  lemma OverdueIff(cfg: Config, ss: seq<State>, acts: seq<Action>, n: nat, id: Id, e: nat)
    requires IsRun(cfg, ss, acts) && n < |ss| && id in ss[n].nodes
    ensures Overdue(cfg, ss[n], id, e) <==> DownTooLong(cfg, ss, acts, n, id, e)
  {
    UptimeIsTicks(cfg, ss, acts, n, id, e, false);
    OverdueByRecord(cfg, ss[n], id, e);
  }

  /**
    A registered node is slashed at most once per epoch, when it ends, exactly if the ticks that found it neither online
    nor recovering add up to more than the threshold.
  */
  lemma SlashedExactly(cfg: Config, ss: seq<State>, acts: seq<Action>, n: nat, id: Id, e: nat)
    requires IsRun(cfg, ss, acts) && Smooth(acts) && 1 <= n < |ss| && id in ss[n].nodes
    ensures Slashes(ss[n], id, e) == if e < ss[n].current && DownTooLong(cfg, ss, acts, n, id, e) then 1 else 0
  {
    SmoothRunSound(cfg, ss, acts, n);
    OverdueIff(cfg, ss, acts, n, id, e);
  }

  /** Epoch numbers rise by one: each check that ends an epoch opens the next number, and nothing else does. */
  lemma EpochsConsecutive(cfg: Config, ss: seq<State>, acts: seq<Action>, n: nat)
    requires IsRun(cfg, ss, acts) && Smooth(acts) && 1 <= n < |acts|
    ensures Numbered(ss[n])
    ensures ss[n + 1].current == ss[n].current + (if acts[n].Check? && Ended(ss[n]) then 1 else 0)
  {
    SmoothRunSound(cfg, ss, acts, n);
    if acts[n].Check? && Ended(ss[n]) {
      AdvanceSound(cfg, ss[n]);
    }
  }

  // ---------- what an interrupted check leaves behind ----------

  /** If paying fails, the epoch's offline nodes are slashed again by the next check. */
  lemma InterruptedCheckSlashesTwice(cfg: Config, s: State, id: Id)
    requires Ended(s) && Overdue(cfg, s, id, s.current)
    ensures var once := Next(cfg, s, Check(InPayment)); var twice := Next(cfg, once, Check(InPayment));
            Slashes(once, id, s.current) == Slashes(s, id, s.current) + 1 && Slashes(twice, id, s.current) == Slashes(s, id, s.current) + 2
  {
    SlashedCount(cfg, s, id, s.current);
    SlashedCount(cfg, SlashedAll(cfg, s), id, s.current);
  }

  /** The next epoch's row exists although the daemon is still in this one. */
  ghost predicate Stuck(s: State) { s.current != 0 && s.current + 1 in s.epochs }

  lemma CheckStuck(cfg: Config, s: State, fault: Fault)
    requires Stuck(s)
    ensures Stuck(Checked(cfg, s, fault)) && Checked(cfg, s, fault).current == s.current
  {}

  lemma StepStuck(cfg: Config, s: State, a: Action)
    requires Stuck(s) && !a.Restart?
    ensures Stuck(Next(cfg, s, a)) && Next(cfg, s, a).current == s.current
  {
    if a.Check? { CheckStuck(cfg, s, a.fault); }
  }

  lemma BecomesStuck(cfg: Config, s: State)
    requires Ended(s)
    ensures var u := Next(cfg, s, Check(BeforeInitializing)); Stuck(u) && u.current == s.current
  {}

  /** An error between creating the next epoch and initializing it leaves the daemon in the old one until a restart. */
  lemma {:induction false} StuckUntilRestart(cfg: Config, ss: seq<State>, acts: seq<Action>, n: nat, m: nat)
    requires IsRun(cfg, ss, acts) && n < m < |ss|
    requires acts[n] == Check(BeforeInitializing) && Ended(ss[n])
    requires forall i | n < i < m :: !acts[i].Restart?
    ensures Stuck(ss[m]) && ss[m].current == ss[n].current
    decreases m
  {
    if m > n + 1 {
      StuckUntilRestart(cfg, ss, acts, n, m - 1);
      StepStuck(cfg, ss[m - 1], acts[m - 1]);
    } else {
      BecomesStuck(cfg, ss[n]);
    }
  }
}
