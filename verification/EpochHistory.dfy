/** The tables of the payment daemon over every run, with database errors and restarts anywhere: which steps put a row there. */
module EpochHistory {
  import opened Wrappers
  import opened Epochs
  import opened EpochFaults
  import opened Histories
  import Lifecycle

  // ---------- uptime records ----------

  /** Step k brings the daemon into epoch e, which was not in the table before. */
  ghost predicate Opens(ss: seq<State>, k: nat, e: nat) { k + 1 < |ss| && e !in ss[k].epochs && ss[k + 1].current == e != 0 }

  /** Step k makes an uptime record: a tick that comes to the node, or the opening of the epoch for a node not in maintenance. */
  ghost predicate MakesRecord(ss: seq<State>, acts: seq<Action>, k: nat, id: Id, e: nat) {
    && k < |acts| && k < |ss| && id in ss[k].nodes
    && (|| (acts[k].Accumulate? && ss[k].current == e != 0 && (id in acts[k].reached || id in acts[k].touched))
        || (Opens(ss, k, e) && ss[k].nodes[id] != Lifecycle.Maintenance))
  }

  lemma TickRecords(cfg: Config, s: State, reached: set<Id>, touched: set<Id>, id: Id, e: nat)
    ensures var u := Next(cfg, s, Accumulate(reached, touched));
            (id, e) in u.uptime <==> (id, e) in s.uptime || (s.current == e != 0 && (id in reached || id in touched))
  {
    assert id in reached ==> (id, s.current) in KeysOf(reached, s.current);
    assert id in touched ==> (id, s.current) in KeysOf(touched, s.current);
  }

  lemma InitialRecords(s: State, first: nat, id: Id, e: nat)
    ensures (id, e) in Initialized(s, first)
            <==> (id, e) in s.uptime || (e == first && id in s.nodes && s.nodes[id] != Lifecycle.Maintenance)
  {
    var active := set i | i in s.nodes && s.nodes[i] != Lifecycle.Maintenance;
    assert id in active ==> (id, first) in KeysOf(active, first);
  }

  lemma AdvancedRecords(s: State, id: Id, e: nat)
    ensures (id, e) in Advanced(s).uptime
            <==> (id, e) in s.uptime || (s.current + 1 !in s.epochs && e == s.current + 1 && id in s.nodes && s.nodes[id] != Lifecycle.Maintenance)
  {
    InitialRecords(Created(s), s.current + 1, id, e);
  }

  lemma SettledRecords(s: State, fault: Fault, id: Id, e: nat)
    requires Contiguous(s) && s.current != 0
    ensures var u := Settled(s, fault);
            (id, e) in u.uptime <==> (id, e) in s.uptime || (e !in s.epochs && u.current == e && id in s.nodes && s.nodes[id] != Lifecycle.Maintenance)
  {
    AdvancedRecords(Finalized(s), id, e);
  }

  lemma CheckRecords(cfg: Config, s: State, fault: Fault, id: Id, e: nat)
    requires Contiguous(s)
    ensures var u := Checked(cfg, s, fault);
            (id, e) in u.uptime <==> (id, e) in s.uptime || (e !in s.epochs && u.current == e != 0 && id in s.nodes && s.nodes[id] != Lifecycle.Maintenance)
  {
    if Ended(s) { SettledRecords(SlashedAll(cfg, s), fault, id, e); }
  }

  lemma RestartRecords(cfg: Config, s: State, resume: Option<nat>, fault: StartFault, id: Id, e: nat)
    requires Contiguous(s) && Enabled(cfg, s, Restart(resume, fault))
    ensures var u := Restarted(s, resume, fault);
            (id, e) in u.uptime <==> (id, e) in s.uptime || (e !in s.epochs && u.current == e != 0 && id in s.nodes && s.nodes[id] != Lifecycle.Maintenance)
  {
    InitialRecords(s, 1, id, e);
  }

  lemma RecordStep(cfg: Config, ss: seq<State>, acts: seq<Action>, n: nat, id: Id, e: nat)
    requires IsRun(cfg, ss, acts) && n < |acts| && id in ss[n].nodes && id in ss[n + 1].nodes
    ensures (id, e) in ss[n + 1].uptime <==> (id, e) in ss[n].uptime || MakesRecord(ss, acts, n, id, e)
  {
    var s, a := ss[n], acts[n];
    assert ss[n + 1] == Next(cfg, s, a) && Enabled(cfg, s, a);
    RunContiguous(cfg, ss, acts, n);
    match a
    case Accumulate(reached, touched) => TickRecords(cfg, s, reached, touched, id, e);
    case Check(fault) => CheckRecords(cfg, s, fault, id, e);
    case Restart(resume, fault) => RestartRecords(cfg, s, resume, fault, id, e);
    case Leave(other) => assert (id, e).0 == id;
    case _ =>
  }

  ghost predicate RecordMade(ss: seq<State>, acts: seq<Action>, n: nat, id: Id, e: nat) {
    exists k: nat :: k < n && MakesRecord(ss, acts, k, id, e)
  }

  /** Over every run a registered node has a record in an epoch if and only if a tick came to it there or the epoch opened while it was not in maintenance. */
  lemma {:induction false} RecordIff(cfg: Config, ss: seq<State>, acts: seq<Action>, n: nat, id: Id, e: nat)
    requires IsRun(cfg, ss, acts) && n < |ss| && id in ss[n].nodes
    ensures (id, e) in ss[n].uptime <==> RecordMade(ss, acts, n, id, e)
  {
    assert n > 0;
    if id in ss[n - 1].nodes {
      RecordIff(cfg, ss, acts, n - 1, id, e);
      OldNodeRecords(cfg, ss, acts, n, id, e);
    } else {
      NewNodeRecords(cfg, ss, acts, n, id, e);
    }
  }

  lemma OldNodeRecords(cfg: Config, ss: seq<State>, acts: seq<Action>, n: nat, id: Id, e: nat)
    requires IsRun(cfg, ss, acts) && 0 < n < |ss| && id in ss[n - 1].nodes && id in ss[n].nodes
    requires (id, e) in ss[n - 1].uptime <==> RecordMade(ss, acts, n - 1, id, e)
    ensures (id, e) in ss[n].uptime <==> RecordMade(ss, acts, n, id, e)
  {
    RecordStep(cfg, ss, acts, n - 1, id, e);
    RecordMadeNext(ss, acts, n - 1, id, e);
  }

  lemma RecordMadeNext(ss: seq<State>, acts: seq<Action>, n: nat, id: Id, e: nat)
    ensures RecordMade(ss, acts, n + 1, id, e) <==> RecordMade(ss, acts, n, id, e) || MakesRecord(ss, acts, n, id, e)
  {}

  lemma NewNodeRecords(cfg: Config, ss: seq<State>, acts: seq<Action>, n: nat, id: Id, e: nat)
    requires IsRun(cfg, ss, acts) && 0 < n < |ss| && id in ss[n].nodes && id !in ss[n - 1].nodes
    ensures (id, e) !in ss[n].uptime && !RecordMade(ss, acts, n, id, e)
  {
    RunLinked(cfg, ss, acts, n - 1);
    NewNode(cfg, ss[n - 1], acts[n - 1], id);
    assert (id, e).0 == id;
    forall k: nat | k < n ensures id !in ss[k].nodes { NotYetUsed(cfg, ss, acts, k, n - 1, id); }
  }

  lemma UsedStep(cfg: Config, ss: seq<State>, acts: seq<Action>, n: nat)
    requires IsRun(cfg, ss, acts) && n < |acts|
    ensures ss[n].used <= ss[n + 1].used
  {
    RunLinked(cfg, ss, acts, n);
    StepLinked(cfg, ss[n], acts[n]);
    assert ss[n + 1] == Next(cfg, ss[n], acts[n]);
  }

  lemma {:induction false} NotYetUsed(cfg: Config, ss: seq<State>, acts: seq<Action>, k: nat, n: nat, id: Id)
    requires IsRun(cfg, ss, acts) && k <= n < |ss| && id !in ss[n].used
    ensures id !in ss[k].nodes
    decreases n
  {
    if k < n {
      UsedStep(cfg, ss, acts, n - 1);
      NotYetUsed(cfg, ss, acts, k, n - 1, id);
    } else {
      RunLinked(cfg, ss, acts, n);
    }
  }

  // ---------- the epochs table ----------

  /** Step k makes the row of epoch e. */
  ghost predicate MakesEpoch(ss: seq<State>, k: nat, e: nat) { k + 1 < |ss| && e !in ss[k].epochs && e in ss[k + 1].epochs }

  /** Step k marks epoch e as paid: its check comes past the payment, and there were uptime records to pay. */
  ghost predicate Pays(ss: seq<State>, acts: seq<Action>, k: nat, e: nat) {
    && k < |acts| && k < |ss| && acts[k].Check? && ss[k].current == e && Ended(ss[k])
    && !acts[k].fault.BeforeSlashing? && !acts[k].fault.InSlashing? && !acts[k].fault.InPayment?
    && exists id :: (id, e) in ss[k].uptime
  }

  lemma RowsOf(s: State, e: nat)
    ensures HasRows(s, e) <==> exists id :: (id, e) in s.uptime
  {
    if k :| k in s.uptime && k.1 == e { assert (k.0, e) in s.uptime; }
    if id :| (id, e) in s.uptime { assert (id, e).1 == e; }
  }

  lemma SettledEpochs(s: State, fault: Fault, e: nat)
    requires Contiguous(s) && s.current != 0
    ensures var u := Settled(s, fault);
            && s.epochs.Keys <= u.epochs.Keys
            && (e in s.epochs ==> u.epochs[e] == s.epochs[e].(finalized := s.epochs[e].finalized || (s.current == e && !fault.InPayment? && HasRows(s, e))))
            && (e in u.epochs && e !in s.epochs ==> u.epochs[e] == Epoch(s.now, false))
  {}

  lemma CheckedEpochs(cfg: Config, s: State, fault: Fault, e: nat)
    requires Contiguous(s)
    ensures var u := Checked(cfg, s, fault);
            && s.epochs.Keys <= u.epochs.Keys
            && (e in s.epochs ==> u.epochs[e] == s.epochs[e].(finalized := s.epochs[e].finalized
                  || (Ended(s) && s.current == e && !fault.BeforeSlashing? && !fault.InSlashing? && !fault.InPayment? && HasRows(s, e))))
            && (e in u.epochs && e !in s.epochs ==> u.epochs[e] == Epoch(s.now, false))
  {
    if Ended(s) {
      var slashed := SlashedAll(cfg, s);
      SettledEpochs(slashed, fault, e);
      assert HasRows(slashed, e) <==> HasRows(s, e);
    }
  }

  lemma EpochStep(cfg: Config, ss: seq<State>, acts: seq<Action>, n: nat, e: nat)
    requires IsRun(cfg, ss, acts) && n < |acts|
    ensures e in ss[n].epochs ==> e in ss[n + 1].epochs && ss[n + 1].epochs[e].startedAt == ss[n].epochs[e].startedAt
    ensures e in ss[n].epochs ==> (ss[n + 1].epochs[e].finalized <==> ss[n].epochs[e].finalized || Pays(ss, acts, n, e))
    ensures MakesEpoch(ss, n, e) ==> ss[n + 1].epochs[e] == Epoch(ss[n].now, false)
  {
    var s, a := ss[n], acts[n];
    assert ss[n + 1] == Next(cfg, s, a) && Enabled(cfg, s, a);
    RunContiguous(cfg, ss, acts, n);
    RowsOf(s, e);
    if a.Check? { CheckedEpochs(cfg, s, a.fault, e); }
  }

  ghost predicate Paid(ss: seq<State>, acts: seq<Action>, n: nat, e: nat) { exists k: nat :: k < n && Pays(ss, acts, k, e) }

  /** Over every run an epoch is finalized if and only if a check of it came past the payment while it had records. */
  lemma {:induction false} FinalizedIff(cfg: Config, ss: seq<State>, acts: seq<Action>, n: nat, e: nat)
    requires IsRun(cfg, ss, acts) && n < |ss| && e in ss[n].epochs
    ensures ss[n].epochs[e].finalized <==> Paid(ss, acts, n, e)
  {
    assert n > 0;
    if e in ss[n - 1].epochs {
      FinalizedIff(cfg, ss, acts, n - 1, e);
      OldEpoch(cfg, ss, acts, n, e);
    } else {
      NewEpoch(cfg, ss, acts, n, e);
    }
  }

  lemma OldEpoch(cfg: Config, ss: seq<State>, acts: seq<Action>, n: nat, e: nat)
    requires IsRun(cfg, ss, acts) && 0 < n < |ss| && e in ss[n - 1].epochs && e in ss[n].epochs
    requires ss[n - 1].epochs[e].finalized <==> Paid(ss, acts, n - 1, e)
    ensures ss[n].epochs[e].finalized <==> Paid(ss, acts, n, e)
  {
    EpochStep(cfg, ss, acts, n - 1, e);
    PaidNext(ss, acts, n - 1, e);
  }

  lemma NewEpoch(cfg: Config, ss: seq<State>, acts: seq<Action>, n: nat, e: nat)
    requires IsRun(cfg, ss, acts) && 0 < n < |ss| && e !in ss[n - 1].epochs && e in ss[n].epochs
    ensures !ss[n].epochs[e].finalized && !Paid(ss, acts, n, e)
  {
    EpochStep(cfg, ss, acts, n - 1, e);
    NewUnpaid(cfg, ss, acts, n, e);
  }

  lemma PaidNext(ss: seq<State>, acts: seq<Action>, n: nat, e: nat)
    ensures Paid(ss, acts, n + 1, e) <==> Paid(ss, acts, n, e) || Pays(ss, acts, n, e)
  {}

  lemma NewUnpaid(cfg: Config, ss: seq<State>, acts: seq<Action>, n: nat, e: nat)
    requires IsRun(cfg, ss, acts) && 0 < n < |ss| && e !in ss[n - 1].epochs
    ensures !Paid(ss, acts, n, e)
  {
    forall k: nat | k < n ensures !Pays(ss, acts, k, e) { NotYetMade(cfg, ss, acts, k, n - 1, e); }
  }

  lemma {:induction false} NotYetMade(cfg: Config, ss: seq<State>, acts: seq<Action>, k: nat, n: nat, e: nat)
    requires IsRun(cfg, ss, acts) && k <= n < |ss| && e !in ss[n].epochs
    ensures e !in ss[k].epochs && (e != 0 ==> ss[k].current != e)
    ensures k < |acts| ==> !Pays(ss, acts, k, e)
    decreases n
  {
    if k < n {
      EpochsStay(cfg, ss, acts, n - 1, e);
      NotYetMade(cfg, ss, acts, k, n - 1, e);
    } else {
      RunContiguous(cfg, ss, acts, k);
    }
  }

  lemma EpochsStay(cfg: Config, ss: seq<State>, acts: seq<Action>, n: nat, e: nat)
    requires IsRun(cfg, ss, acts) && n < |acts| && e !in ss[n + 1].epochs
    ensures e !in ss[n].epochs
  {
    EpochStep(cfg, ss, acts, n, e);
  }

  /** An epoch's start is the time its row was made, and stays so. */
  lemma {:induction false} StartedWhenMade(cfg: Config, ss: seq<State>, acts: seq<Action>, n: nat, e: nat) returns (k: nat)
    requires IsRun(cfg, ss, acts) && n < |ss| && e in ss[n].epochs
    ensures k < n && MakesEpoch(ss, k, e) && ss[n].epochs[e].startedAt == ss[k].now
  {
    assert n > 0;
    EpochStep(cfg, ss, acts, n - 1, e);
    if e in ss[n - 1].epochs { k := StartedWhenMade(cfg, ss, acts, n - 1, e); } else { k := n - 1; }
  }

  // ---------- the daemon's memory ----------

  ghost predicate Remembers(s: State) {
    s.start == if s.current == 0 then None else if s.current in s.epochs then Some(s.epochs[s.current].startedAt) else s.start
  }

  lemma RestartRemembers(cfg: Config, s: State, resume: Option<nat>, fault: StartFault)
    requires Contiguous(s) && Enabled(cfg, s, Restart(resume, fault))
    ensures Remembers(Restarted(s, resume, fault))
  {}

  lemma SettledRemembers(s: State, fault: Fault)
    requires Contiguous(s) && Remembers(s) && s.current != 0
    ensures Remembers(Settled(s, fault))
  {}

  lemma CheckRemembers(cfg: Config, s: State, fault: Fault)
    requires Contiguous(s) && Remembers(s)
    ensures Remembers(Checked(cfg, s, fault))
  {
    if Ended(s) { SettledRemembers(SlashedAll(cfg, s), fault); }
  }

  lemma StepRemembers(cfg: Config, s: State, a: Action)
    requires Contiguous(s) && Remembers(s) && Enabled(cfg, s, a)
    ensures Remembers(Next(cfg, s, a))
  {
    match a
    case Check(fault) => CheckRemembers(cfg, s, fault);
    case Restart(resume, fault) => RestartRemembers(cfg, s, resume, fault);
    case _ =>
  }

  lemma {:induction false} AlwaysRemembers(cfg: Config, ss: seq<State>, acts: seq<Action>, n: nat)
    requires IsRun(cfg, ss, acts) && n < |ss|
    ensures Remembers(ss[n])
  {
    if n > 0 {
      AlwaysRemembers(cfg, ss, acts, n - 1);
      StillRemembers(cfg, ss, acts, n - 1);
    }
  }

  lemma StillRemembers(cfg: Config, ss: seq<State>, acts: seq<Action>, n: nat)
    requires IsRun(cfg, ss, acts) && n < |acts| && Remembers(ss[n])
    ensures Remembers(ss[n + 1])
  {
    var s, a := ss[n], acts[n];
    RunContiguous(cfg, ss, acts, n);
    assert ss[n + 1] == Next(cfg, s, a) && Enabled(cfg, s, a);
    StepRemembers(cfg, s, a);
  }

  /** The daemon's start time is that of its epoch in the table, and it has none outside an epoch. */
  lemma RunRemembers(cfg: Config, ss: seq<State>, acts: seq<Action>, n: nat)
    requires IsRun(cfg, ss, acts) && n < |ss|
    ensures ss[n].current == 0 ==> ss[n].start == None
    ensures ss[n].current != 0 ==> ss[n].current in ss[n].epochs && ss[n].start == Some(ss[n].epochs[ss[n].current].startedAt)
  {
    AlwaysRemembers(cfg, ss, acts, n);
    RunContiguous(cfg, ss, acts, n);
  }

  // ---------- status ----------

  /** Step k sets the status of the registered node, or it joins, which makes it online. */
  ghost predicate SetsStatus(ss: seq<State>, acts: seq<Action>, k: nat, id: Id, status: Lifecycle.Status) {
    && k < |acts| && k + 1 < |ss|
    && ((acts[k] == SetStatus(id, status) && id in ss[k].nodes) || (id !in ss[k].nodes && id in ss[k + 1].nodes && status == Lifecycle.Online))
  }

  ghost predicate SetsAny(ss: seq<State>, acts: seq<Action>, k: nat, id: Id) { exists status :: SetsStatus(ss, acts, k, id, status) }

  lemma StatusStep(cfg: Config, s: State, a: Action, id: Id)
    requires Linked(s) && id in Next(cfg, s, a).nodes
    ensures Next(cfg, s, a).nodes[id] == if id !in s.nodes then Lifecycle.Online else if a.SetStatus? && a.id == id then a.status else s.nodes[id]
  {
    if a.Check? { CheckKeepsNodes(cfg, s, a.fault); }
  }

  /** What a tick finds is the status set last. */
  lemma {:induction false} StatusIs(cfg: Config, ss: seq<State>, acts: seq<Action>, n: nat, id: Id, status: Lifecycle.Status)
    requires IsRun(cfg, ss, acts) && n < |ss| && id in ss[n].nodes
    ensures ss[n].nodes[id] == status <==> Latest((k: nat) => SetsStatus(ss, acts, k, id, status), (k: nat) => SetsAny(ss, acts, k, id), n)
  {
    assert n > 0;
    LatestNext((k: nat) => SetsStatus(ss, acts, k, id, status), (k: nat) => SetsAny(ss, acts, k, id), n - 1);
    assert ss[n] == Next(cfg, ss[n - 1], acts[n - 1]);
    RunLinked(cfg, ss, acts, n - 1);
    StatusStep(cfg, ss[n - 1], acts[n - 1], id);
    if id in ss[n - 1].nodes {
      StatusIs(cfg, ss, acts, n - 1, id, status);
      if acts[n - 1].SetStatus? && acts[n - 1].id == id { assert SetsStatus(ss, acts, n - 1, id, acts[n - 1].status); }
    } else {
      assert SetsStatus(ss, acts, n - 1, id, Lifecycle.Online);
    }
  }
}
